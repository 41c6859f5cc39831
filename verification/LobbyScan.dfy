/** Parsing a lobby document and consuming the callbacks is reading the document directly. */
module LobbyScan {
  import opened CStrings
  import opened ParserSpec
  import opened Document
  import opened SessionTable
  import opened DirectReading

  // ---------------------------------------------------------------- a server in document order

  /** Slot `n` holds `p`, counted if its last field was LAST. */
  function Seated(g: GameInfo, n: nat, p: PlayerInfo, last: bool): GameInfo
    requires n < |g.playerinfo|
  {
    g.(playerinfo := g.playerinfo[n := p], playerCount := g.playerCount + if last then 1 else 0)
  }

  function AddPlayer(lib: Library, g: GameInfo, m: Members, n: nat): GameInfo
    requires n < |g.playerinfo| && ScalarMembers(m)
  {
    Seated(g, n, ReadPlayer(lib, m), EndsWithWord(m))
  }

  function AddPlayers(lib: Library, g: GameInfo, items: Items, n: nat): (r: GameInfo)
    requires PlayerItems(items) && n + Present(items) <= |g.playerinfo|
    ensures |r.playerinfo| == |g.playerinfo| && r.info == g.info
    decreases items
  {
    if items.NoItem? then g
    else if items.val.members.NoMember? then AddPlayers(lib, g, items.rest, n)
    else AddPlayers(lib, AddPlayer(lib, g, items.val.members, n), items.rest, n + 1)
  }

  /** The players that report something, and the slots that all of them take up. */
  function PlayerTotal(m: Members): nat {
    if m.NoMember? then 0 else (if m.val.Arr? then Present(m.val.items) else 0) + PlayerTotal(m.rest)
  }

  function SlotTotal(m: Members): nat {
    if m.NoMember? then 0 else (if m.val.Arr? then Count(m.val.items) else 0) + SlotTotal(m.rest)
  }

  lemma {:induction false} FollowersFit(items: Items, n: nat, p: nat)
    requires PlayerItems(items) && PlayersFollow(items, n, p) && n <= MAX_PLAYERS
    ensures n + Present(items) <= MAX_PLAYERS
    ensures n <= p ==> n + Present(items) <= p + Count(items)
    decreases items
  {
    if items.Item? {
      FollowersFit(items.rest, if items.val.members.Member? then n + 1 else n, p + 1);
    }
  }

  lemma {:induction false} RoomIsEnough(m: Members, n: nat, p: nat)
    requires ServerMembers(m) && RoomFor(m, n, p) && n <= MAX_PLAYERS
    ensures n + PlayerTotal(m) <= MAX_PLAYERS
    decreases m
  {
    if m.Member? && m.val.Arr? {
      FollowersFit(m.val.items, n, p);
      RoomIsEnough(m.rest, n + Present(m.val.items), p + Count(m.val.items));
    } else if m.Member? {
      RoomIsEnough(m.rest, n, p);
    }
  }

  /** A game with one more field of its server stored. */
  function WithField(lib: Library, g: GameInfo, m: Members): GameInfo
    requires m.Member? && Scalar(m.val)
  {
    g.(info := lib.setServer(g.info, Copied(m.key, KEY_LEN), Copied(TextOf(m.val), VALUE_LEN)))
  }

  /** Fields and players in the order of the document. */
  function FillServer(lib: Library, g: GameInfo, m: Members, n: nat): (r: GameInfo)
    requires ServerMembers(m) && n + PlayerTotal(m) <= |g.playerinfo|
    ensures |r.playerinfo| == |g.playerinfo|
    decreases m
  {
    if m.NoMember? then g
    else if m.val.Arr? then
      FillServer(lib, AddPlayers(lib, g, m.val.items, n), m.rest, n + Present(m.val.items))
    else
      FillServer(lib, WithField(lib, g, m), m.rest, n)
  }

  lemma {:induction false} PlayersAreCounted(lib: Library, items: Items)
    requires PlayerItems(items)
    ensures |ReadPlayers(lib, items)| == Present(items)
  {
    if items.Item? {
      PlayersAreCounted(lib, items.rest);
    }
  }

  lemma {:induction false} RosterIsCounted(lib: Library, m: Members)
    requires ServerMembers(m)
    ensures |Roster(lib, m)| == PlayerTotal(m)
  {
    if m.Member? {
      if m.val.Arr? {
        PlayersAreCounted(lib, m.val.items);
      }
      RosterIsCounted(lib, m.rest);
    }
  }

  /** `players` written into the slots from `n` on. */
  function Placed(slots: seq<PlayerInfo>, n: nat, players: seq<PlayerInfo>): (r: seq<PlayerInfo>)
    requires n + |players| <= |slots|
    ensures |r| == |slots|
    decreases |players|
  {
    if players == [] then slots else Placed(slots[n := players[0]], n + 1, players[1..])
  }

  lemma {:induction false} PlacedTwice(slots: seq<PlayerInfo>, n: nat, a: seq<PlayerInfo>, b: seq<PlayerInfo>)
    requires n + |a| + |b| <= |slots|
    ensures Placed(Placed(slots, n, a), n + |a|, b) == Placed(slots, n, a + b)
    decreases |a|
  {
    if a == [] {
      assert a + b == b;
    } else {
      assert (a + b)[0] == a[0] && (a + b)[1..] == a[1..] + b;
      PlacedTwice(slots[n := a[0]], n + 1, a[1..], b);
    }
  }

  lemma {:induction false} PlacedBetween(slots: seq<PlayerInfo>, n: nat, players: seq<PlayerInfo>)
    requires n + |players| <= |slots|
    ensures Placed(slots, n, players) == slots[..n] + players + slots[n + |players|..]
    decreases |players|
  {
    if players == [] {
      assert slots[..n] + slots[n..] == slots;
    } else {
      PlacedBetween(slots[n := players[0]], n + 1, players[1..]);
      assert slots[n := players[0]][..n + 1] == slots[..n] + [players[0]];
    }
  }

  function WithPlayers(g: GameInfo, players: seq<PlayerInfo>, count: nat): GameInfo {
    g.(playerinfo := players, playerCount := count)
  }

  lemma {:induction false} AddPlayersPlaces(lib: Library, g: GameInfo, items: Items, n: nat)
    requires PlayerItems(items) && n + Present(items) <= |g.playerinfo|
    ensures |ReadPlayers(lib, items)| == Present(items)
    ensures AddPlayers(lib, g, items, n) ==
      WithPlayers(g, Placed(g.playerinfo, n, ReadPlayers(lib, items)), g.playerCount + CountLasts(items))
    decreases items
  {
    PlayersAreCounted(lib, items);
    if items.Item? && items.val.members.NoMember? {
      AddPlayersPlaces(lib, g, items.rest, n);
      assert ReadPlayers(lib, items) == ReadPlayers(lib, items.rest);
    } else if items.Item? {
      AddPlayersPlaces(lib, AddPlayer(lib, g, items.val.members, n), items.rest, n + 1);
      assert ReadPlayers(lib, items)[1..] == ReadPlayers(lib, items.rest);
    }
  }

  /** `g` with the fields of a server and its players, read separately. */
  function ReadInto(lib: Library, g: GameInfo, m: Members, n: nat): GameInfo
    requires ServerMembers(m) && n + |Roster(lib, m)| <= |g.playerinfo|
  {
    GameInfo(FoldFields(lib, g.info, m), g.modName, g.playerCount + RosterLasts(m),
             Placed(g.playerinfo, n, Roster(lib, m)))
  }

  lemma ArrayIsRead(lib: Library, g: GameInfo, m: Members, n: nat)
    requires m.Member? && m.val.Arr? && ServerMembers(m) && n + |Roster(lib, m)| <= |g.playerinfo|
    ensures var here := ReadPlayers(lib, m.val.items);
      var next := WithPlayers(g, Placed(g.playerinfo, n, here), g.playerCount + CountLasts(m.val.items));
      |Roster(lib, m)| == |here| + |Roster(lib, m.rest)| &&
      ReadInto(lib, next, m.rest, n + |here|) == ReadInto(lib, g, m, n)
  {
    PlacedTwice(g.playerinfo, n, ReadPlayers(lib, m.val.items), Roster(lib, m.rest));
  }

  lemma FieldIsRead(lib: Library, g: GameInfo, m: Members, n: nat)
    requires m.Member? && Scalar(m.val) && ServerMembers(m) && n + |Roster(lib, m)| <= |g.playerinfo|
    ensures Roster(lib, m) == Roster(lib, m.rest)
    ensures ReadInto(lib, WithField(lib, g, m), m.rest, n) == ReadInto(lib, g, m, n)
  {
    assert [] + Roster(lib, m.rest) == Roster(lib, m.rest);
  }

  /** Document order does not matter between fields and players. */
  lemma {:induction false} FillServerReads(lib: Library, g: GameInfo, m: Members, n: nat)
    requires ServerMembers(m) && n + PlayerTotal(m) <= |g.playerinfo|
    ensures |Roster(lib, m)| == PlayerTotal(m)
    ensures FillServer(lib, g, m, n) == ReadInto(lib, g, m, n)
    decreases m
  {
    RosterIsCounted(lib, m);
    if m.Member? && m.val.Arr? {
      var items := m.val.items;
      AddPlayersPlaces(lib, g, items, n);
      FillServerReads(lib, AddPlayers(lib, g, items, n), m.rest, n + Present(items));
      ArrayIsRead(lib, g, m, n);
    } else if m.Member? {
      FillServerReads(lib, WithField(lib, g, m), m.rest, n);
      FieldIsRead(lib, g, m, n);
    }
  }

  // ---------------------------------------------------------------- records of one object

  /** The record of the first of some scalar members. */
  function FirstRecord(m: Members, depth: nat, at: Slots): Record
    requires m.Member? && Scalar(m.val)
  {
    Record(if m.val.Word? && m.rest.NoMember? then Last else Normal, depth == 5,
           Copied(m.key, KEY_LEN), Copied(TextOf(m.val), VALUE_LEN), at.server, at.player)
  }

  function PlayerTrace(m: Members, at: Slots): seq<Record>
    requires ScalarMembers(m)
  {
    if m.NoMember? then [] else [FirstRecord(m, 5, at)] + PlayerTrace(m.rest, at)
  }

  function PlayersTrace(items: Items, at: Slots): seq<Record>
    requires PlayerItems(items)
    decreases items
  {
    if items.NoItem? then []
    else PlayerTrace(items.val.members, at) + PlayersTrace(items.rest, Slots(at.server, at.player + 1))
  }

  function ServerTrace(m: Members, at: Slots): seq<Record>
    requires ServerMembers(m)
    decreases m
  {
    if m.NoMember? then []
    else if m.val.Arr? then
      PlayersTrace(m.val.items, at) + ServerTrace(m.rest, Slots(at.server, at.player + Count(m.val.items)))
    else [FirstRecord(m, 3, at)] + ServerTrace(m.rest, at)
  }

  function ServersTrace(items: Items, server: nat): seq<Record>
    requires ServerItems(items)
    decreases items
  {
    if items.NoItem? then []
    else ServerTrace(items.val.members, Slots(server, 0)) + ServersTrace(items.rest, server + 1)
  }

  lemma {:induction false} PlayerWalk(m: Members, at: Slots)
    requires ScalarMembers(m) && WalkMembers(m, 5, at).ok
    ensures WalkMembers(m, 5, at) == Walked(true, PlayerTrace(m, at), at)
    decreases m
  {
    if m.Member? {
      PlayerWalk(m.rest, at);
    }
  }

  lemma {:induction false} PlayersWalk(items: Items, at: Slots)
    requires PlayerItems(items) && WalkItems(items, 4, at).ok
    ensures WalkItems(items, 4, at) ==
      Walked(true, PlayersTrace(items, at), Slots(at.server, at.player + Count(items)))
    decreases items
  {
    if items.Item? {
      PlayerWalk(items.val.members, at);
      PlayersWalk(items.rest, Slots(at.server, at.player + 1));
    }
  }

  lemma {:induction false} ServerWalk(m: Members, at: Slots)
    requires ServerMembers(m) && WalkMembers(m, 3, at).ok
    ensures WalkMembers(m, 3, at) == Walked(true, ServerTrace(m, at), Slots(at.server, at.player + SlotTotal(m)))
    decreases m
  {
    if m.Member? && m.val.Arr? {
      PlayersWalk(m.val.items, at);
      ServerWalk(m.rest, Slots(at.server, at.player + Count(m.val.items)));
    } else if m.Member? {
      ServerWalk(m.rest, at);
    }
  }

  lemma {:induction false} ServersWalk(items: Items, server: nat)
    requires ServerItems(items) && WalkItems(items, 2, Slots(server, 0)).ok
    ensures WalkItems(items, 2, Slots(server, 0)) ==
      Walked(true, ServersTrace(items, server), Slots(server + Count(items), 0))
    decreases items
  {
    if items.Item? {
      ServerWalk(items.val.members, Slots(server, 0));
      ServersWalk(items.rest, server + 1);
    }
  }

  // ---------------------------------------------------------------- the table inside one server

  /** `t`, which has just opened a server, after `n` of its players: `g` is what the server has become. */
  function At(t: Table, g: GameInfo, n: nat): Table
    requires t.game < |t.games|
  {
    t.(games := t.games[t.game := g], players := n, player := if n == 0 then t.player else n - 1)
  }

  predicate AtServer(t: Table, g: GameInfo, n: nat) {
    GoodTable(t) && t.servers == t.game + 1 && GoodGame(g) && n <= MAX_PLAYERS
  }

  function ClosedIf(t: Table, last: bool): Table
    requires t.game < |t.games| && t.prevCount <= |t.prev|
  {
    if last then CloseServer(t) else t
  }

  /** A record that a server's walk can make. */
  predicate About(t: Table, r: Record, isPlayer: bool, n: nat) {
    r.server == t.game && r.isPlayer == isPlayer && r.player == n < MAX_PLAYERS
  }

  lemma FieldStored(lib: Library, t: Table, g: GameInfo, n: nat, p: nat, r: Record)
    requires AtServer(t, g, n) && About(t, r, false, p)
    ensures GoodTable(At(t, g, n))
    ensures Consume(lib, At(t, g, n), r, true) ==
      Answer(false, ClosedIf(At(t, g.(info := lib.setServer(g.info, r.key, r.value)), n), r.status == Last))
  {
    var g1 := g.(info := lib.setServer(g.info, r.key, r.value));
    assert t.games[t.game := g][t.game := g1] == t.games[t.game := g1];
  }

  /** A field of the player that was opened last. */
  lemma PlayerFieldStored(lib: Library, t: Table, g: GameInfo, n: nat, p: PlayerInfo, r: Record)
    requires AtServer(t, g, n) && About(t, r, true, n)
    ensures GoodTable(At(t, Seated(g, n, p, false), n + 1))
    ensures Consume(lib, At(t, Seated(g, n, p, false), n + 1), r, true) ==
      Answer(false, At(t, Seated(g, n, lib.setPlayer(p, r.key, r.value), r.status == Last), n + 1))
  {
    var q := lib.setPlayer(p, r.key, r.value);
    assert g.playerinfo[n := p][n := q] == g.playerinfo[n := q];
    var g1, g2 := Seated(g, n, p, false), Seated(g, n, q, r.status == Last);
    assert t.games[t.game := g1][t.game := g2] == t.games[t.game := g2];
  }

  /** The first field of a player stores it as if the player had been opened before. */
  lemma PlayerOpened(lib: Library, t: Table, g: GameInfo, n: nat, r: Record)
    requires AtServer(t, g, n) && About(t, r, true, n)
    ensures GoodTable(At(t, g, n)) && GoodTable(At(t, Seated(g, n, NO_PLAYER, false), n + 1))
    ensures Consume(lib, At(t, g, n), r, true) == Consume(lib, At(t, Seated(g, n, NO_PLAYER, false), n + 1), r, true)
  {
    var o := At(t, Seated(g, n, NO_PLAYER, false), n + 1);
    var g1 := Seated(g, n, NO_PLAYER, false);
    assert t.games[t.game := g][t.game := g1] == t.games[t.game := g1];
    assert OpenPlayer(At(t, g, n), n) == o;
  }

  // ---------------------------------------------------------------- feeding records

  type Step = (Table, Record) -> Answer

  /** `ConsumeAll` for any consumer. What follows uses the real one only where a single record is looked at. */
  function Feed(step: Step, t: Table, trace: seq<Record>): Answer
    decreases |trace|
  {
    if trace == [] then Answer(false, t)
    else
      var a := step(t, trace[0]);
      if a.stop then a else Feed(step, a.table, trace[1..])
  }

  ghost predicate Steps(lib: Library, step: Step) {
    forall t: Table, r: Record {:trigger Consume(lib, t, r, true)} ::
      GoodTable(t) ==> step(t, r) == Consume(lib, t, r, true)
  }

  function StepOf(lib: Library): Step {
    (t: Table, r: Record) => if GoodTable(t) then Consume(lib, t, r, true) else Answer(true, t)
  }

  lemma StepsOf(lib: Library)
    ensures Steps(lib, StepOf(lib))
  {
  }

  lemma {:induction false} FeedIsConsumeAll(lib: Library, t: Table, trace: seq<Record>)
    requires GoodTable(t)
    ensures Feed(StepOf(lib), t, trace) == ConsumeAll(lib, t, trace)
    decreases |trace|
  {
    if trace != [] {
      var a := Consume(lib, t, trace[0], true);
      if !a.stop {
        FeedIsConsumeAll(lib, a.table, trace[1..]);
      }
    }
  }

  lemma {:induction false} FeedKeepsGood(lib: Library, step: Step, t: Table, trace: seq<Record>)
    requires Steps(lib, step) && GoodTable(t)
    ensures GoodTable(Feed(step, t, trace).table)
    decreases |trace|
  {
    if trace != [] {
      var a := Consume(lib, t, trace[0], true);
      if !a.stop {
        FeedKeepsGood(lib, step, a.table, trace[1..]);
      }
    }
  }

  lemma {:induction false} FeedConcat(step: Step, t: Table, a: seq<Record>, b: seq<Record>)
    ensures Feed(step, t, a + b) ==
      if Feed(step, t, a).stop then Feed(step, t, a) else Feed(step, Feed(step, t, a).table, b)
    decreases |a|
  {
    if a == [] {
      assert a + b == b;
    } else {
      assert (a + b)[1..] == a[1..] + b;
      var first := step(t, a[0]);
      if !first.stop {
        FeedConcat(step, first.table, a[1..], b);
      }
    }
  }

  // ---------------------------------------------------------------- the callbacks of one server

  lemma {:induction false} PlayerRecords(lib: Library, step: Step, t: Table, g: GameInfo, n: nat, p: PlayerInfo,
                                         m: Members)
    requires Steps(lib, step)
    requires AtServer(t, g, n) && n < MAX_PLAYERS && m.Member? && ScalarMembers(m)
    ensures GoodTable(At(t, Seated(g, n, p, false), n + 1))
    ensures Feed(step, At(t, Seated(g, n, p, false), n + 1), PlayerTrace(m, Slots(t.game, n))) ==
      Answer(false, At(t, Seated(g, n, FoldPlayer(lib, p, m), EndsWithWord(m)), n + 1))
    decreases m
  {
    var at := Slots(t.game, n);
    var r, rest := FirstRecord(m, 5, at), PlayerTrace(m.rest, at);
    assert ([r] + rest)[1..] == rest;
    PlayerFieldStored(lib, t, g, n, p, r);
    if m.rest.Member? {
      PlayerRecords(lib, step, t, g, n, lib.setPlayer(p, r.key, r.value), m.rest);
    }
  }

  lemma SameFirstStep(step: Step, t1: Table, t2: Table, trace: seq<Record>)
    requires trace != []
    requires step(t1, trace[0]) == step(t2, trace[0])
    ensures Feed(step, t1, trace) == Feed(step, t2, trace)
  {
  }

  lemma Then(step: Step, t1: Table, a: seq<Record>, t2: Table, b: seq<Record>, end: Answer)
    requires Feed(step, t1, a) == Answer(false, t2) && Feed(step, t2, b) == end
    ensures Feed(step, t1, a + b) == end
  {
    FeedConcat(step, t1, a, b);
  }

  lemma OnePlayer(lib: Library, step: Step, t: Table, g: GameInfo, n: nat, m: Members)
    requires Steps(lib, step)
    requires AtServer(t, g, n) && n < MAX_PLAYERS && m.Member? && ScalarMembers(m)
    ensures GoodTable(At(t, g, n))
    ensures Feed(step, At(t, g, n), PlayerTrace(m, Slots(t.game, n))) ==
      Answer(false, At(t, AddPlayer(lib, g, m, n), n + 1))
  {
    var at := Slots(t.game, n);
    PlayerOpened(lib, t, g, n, FirstRecord(m, 5, at));
    SameFirstStep(step, At(t, g, n), At(t, Seated(g, n, NO_PLAYER, false), n + 1), PlayerTrace(m, at));
    PlayerRecords(lib, step, t, g, n, NO_PLAYER, m);
  }

  lemma PlayerThen(lib: Library, step: Step, t: Table, g: GameInfo, n: nat, m: Members, rest: seq<Record>, end: Answer)
    requires Steps(lib, step)
    requires AtServer(t, g, n) && n < MAX_PLAYERS && m.Member? && ScalarMembers(m)
    requires var g1 := AddPlayer(lib, g, m, n);
      GoodTable(At(t, g1, n + 1)) && Feed(step, At(t, g1, n + 1), rest) == end
    ensures GoodTable(At(t, g, n)) && Feed(step, At(t, g, n), PlayerTrace(m, Slots(t.game, n)) + rest) == end
  {
    OnePlayer(lib, step, t, g, n, m);
    Then(step, At(t, g, n), PlayerTrace(m, Slots(t.game, n)), At(t, AddPlayer(lib, g, m, n), n + 1), rest, end);
  }

  lemma {:induction false} PlayersRecords(lib: Library, step: Step, t: Table, g: GameInfo, n: nat, p: nat, items: Items)
    requires Steps(lib, step)
    requires AtServer(t, g, n) && PlayerItems(items) && PlayersFollow(items, n, p) && n + Present(items) <= MAX_PLAYERS
    ensures GoodTable(At(t, g, n))
    ensures Feed(step, At(t, g, n), PlayersTrace(items, Slots(t.game, p))) ==
      Answer(false, At(t, AddPlayers(lib, g, items, n), n + Present(items)))
    decreases items
  {
    if items.Item? && items.val.members.NoMember? {
      PlayersRecords(lib, step, t, g, n, p + 1, items.rest);
      EmptyFirst(items, Slots(t.game, p));
    } else if items.Item? {
      PlayersRecords(lib, step, t, AddPlayer(lib, g, items.val.members, n), n + 1, p + 1, items.rest);
      PlayerThen(lib, step, t, g, n, items.val.members, PlayersTrace(items.rest, Slots(t.game, n + 1)),
                 Answer(false, At(t, AddPlayers(lib, g, items, n), n + Present(items))));
    }
  }

  lemma EmptyFirst(items: Items, at: Slots)
    requires items.Item? && PlayerItems(items) && items.val.members.NoMember?
    ensures PlayersTrace(items, at) == PlayersTrace(items.rest, Slots(at.server, at.player + 1))
  {
    var rest := PlayersTrace(items.rest, Slots(at.server, at.player + 1));
    assert [] + rest == rest;
  }

  /** An array of players, and then `end`. */
  lemma ArrayRecords(lib: Library, step: Step, t: Table, g: GameInfo, n: nat, p: nat, m: Members, end: Answer)
    requires Steps(lib, step)
    requires AtServer(t, g, n) && m.Member? && m.val.Arr? && ServerMembers(m)
    requires PlayersFollow(m.val.items, n, p) && n + Present(m.val.items) <= MAX_PLAYERS
    requires var g1, n1 := AddPlayers(lib, g, m.val.items, n), n + Present(m.val.items);
      && GoodTable(At(t, g1, n1))
      && Feed(step, At(t, g1, n1), ServerTrace(m.rest, Slots(t.game, p + Count(m.val.items)))) == end
    ensures GoodTable(At(t, g, n)) && Feed(step, At(t, g, n), ServerTrace(m, Slots(t.game, p))) == end
  {
    var g1, n1 := AddPlayers(lib, g, m.val.items, n), n + Present(m.val.items);
    PlayersRecords(lib, step, t, g, n, p, m.val.items);
    Then(step, At(t, g, n), PlayersTrace(m.val.items, Slots(t.game, p)), At(t, g1, n1),
         ServerTrace(m.rest, Slots(t.game, p + Count(m.val.items))), end);
    ArrayTrace(m, Slots(t.game, p));
  }

  lemma ArrayTrace(m: Members, at: Slots)
    requires m.Member? && m.val.Arr? && ServerMembers(m)
    ensures ServerTrace(m, at) ==
      PlayersTrace(m.val.items, at) + ServerTrace(m.rest, Slots(at.server, at.player + Count(m.val.items)))
  {
  }

  /** The table once the callbacks of some members of a server have been answered. */
  function Filled(lib: Library, t: Table, g: GameInfo, n: nat, m: Members): Table
    requires AtServer(t, g, n) && ServerMembers(m) && n + PlayerTotal(m) <= MAX_PLAYERS
  {
    ClosedIf(At(t, FillServer(lib, g, m, n), n + PlayerTotal(m)), EndsWithWord(m))
  }

  lemma FilledAfterArray(lib: Library, t: Table, g: GameInfo, n: nat, m: Members)
    requires AtServer(t, g, n) && ServerMembers(m) && m.Member? && m.val.Arr? && n + PlayerTotal(m) <= MAX_PLAYERS
    ensures Filled(lib, t, AddPlayers(lib, g, m.val.items, n), n + Present(m.val.items), m.rest) ==
      Filled(lib, t, g, n, m)
  {
  }

  /** The callbacks of one server fill one game. */
  lemma {:induction false} ServerRecords(lib: Library, step: Step, t: Table, g: GameInfo, n: nat, p: nat, m: Members)
    requires Steps(lib, step)
    requires AtServer(t, g, n) && ServerMembers(m) && RoomFor(m, n, p) && n + PlayerTotal(m) <= MAX_PLAYERS
    ensures GoodTable(At(t, g, n))
    ensures Feed(step, At(t, g, n), ServerTrace(m, Slots(t.game, p))) == Answer(false, Filled(lib, t, g, n, m))
    decreases m
  {
    if m.Member? && m.val.Arr? {
      RosterRecords(lib, step, t, g, n, p, m);
    } else if m.Member? {
      FieldRecords(lib, step, t, g, n, p, m);
    }
  }

  lemma {:induction false} RosterRecords(lib: Library, step: Step, t: Table, g: GameInfo, n: nat, p: nat, m: Members)
    requires Steps(lib, step)
    requires AtServer(t, g, n) && ServerMembers(m) && RoomFor(m, n, p) && n + PlayerTotal(m) <= MAX_PLAYERS
    requires m.Member? && m.val.Arr?
    ensures GoodTable(At(t, g, n))
    ensures Feed(step, At(t, g, n), ServerTrace(m, Slots(t.game, p))) == Answer(false, Filled(lib, t, g, n, m))
    decreases m, 0
  {
    var items := m.val.items;
    ServerRecords(lib, step, t, AddPlayers(lib, g, items, n), n + Present(items), p + Count(items), m.rest);
    FilledAfterArray(lib, t, g, n, m);
    ArrayRecords(lib, step, t, g, n, p, m, Answer(false, Filled(lib, t, g, n, m)));
  }

  lemma {:induction false} FieldRecords(lib: Library, step: Step, t: Table, g: GameInfo, n: nat, p: nat, m: Members)
    requires Steps(lib, step)
    requires AtServer(t, g, n) && ServerMembers(m) && RoomFor(m, n, p) && n + PlayerTotal(m) <= MAX_PLAYERS
    requires m.Member? && Scalar(m.val)
    ensures GoodTable(At(t, g, n))
    ensures Feed(step, At(t, g, n), ServerTrace(m, Slots(t.game, p))) == Answer(false, Filled(lib, t, g, n, m))
    decreases m, 0
  {
    var at := Slots(t.game, p);
    var r, rest := FirstRecord(m, 3, at), ServerTrace(m.rest, at);
    assert ([r] + rest)[1..] == rest;
    FieldStored(lib, t, g, n, p, r);
    if m.rest.Member? {
      ServerRecords(lib, step, t, WithField(lib, g, m), n, p, m.rest);
    } else {
      assert FillServer(lib, g, m, n) == WithField(lib, g, m);
    }
  }

  // ---------------------------------------------------------------- the lobby

  /** The servers whose last member is a bare value: the ones that get a row. */
  function ClosedServers(items: Items, n: nat): seq<nat>
    requires ServerItems(items)
    decreases items
  {
    if items.NoItem? then []
    else (if EndsWithWord(items.val.members) then [n] else []) + ClosedServers(items.rest, n + 1)
  }

  lemma RosterFits(lib: Library, m: Members)
    requires ServerMembers(m) && RoomFor(m, 0, 0)
    ensures |Roster(lib, m)| <= MAX_PLAYERS
  {
    RoomIsEnough(m, 0, 0);
    RosterIsCounted(lib, m);
  }

  /** The games a lobby describes: one for each server that reports something. */
  function ReadServers(lib: Library, items: Items): (r: seq<GameInfo>)
    requires ServerItems(items) && AllHaveRoom(items)
    ensures |r| == Reporting(items)
  {
    if items.NoItem? then []
    else
      RosterFits(lib, items.val.members);
      (if Reports(items.val.members) then [ReadServer(lib, items.val.members)] else []) + ReadServers(lib, items.rest)
  }

  lemma {:induction false} FirstPlayerReport(items: Items, at: Slots)
    requires PlayerItems(items)
    ensures var trace := PlayersTrace(items, at);
      (Present(items) == 0 <==> trace == []) && (trace != [] ==> trace[0].server == at.server)
    decreases items
  {
    if items.Item? && items.val.members.NoMember? {
      EmptyFirst(items, at);
      FirstPlayerReport(items.rest, Slots(at.server, at.player + 1));
    } else if items.Item? {
      assert PlayersTrace(items, at)[0] == PlayerTrace(items.val.members, at)[0];
    }
  }

  lemma {:induction false} FirstPlayerFits(items: Items, n: nat, at: Slots)
    requires PlayerItems(items) && PlayersFollow(items, n, at.player) && PlayersTrace(items, at) != []
    ensures PlayersTrace(items, at)[0].player < MAX_PLAYERS
    decreases items
  {
    if items.val.members.NoMember? {
      EmptyFirst(items, at);
      FirstPlayerFits(items.rest, n, Slots(at.server, at.player + 1));
    } else {
      assert PlayersTrace(items, at)[0] == PlayerTrace(items.val.members, at)[0];
    }
  }

  /** A server that reports something first reports something about itself. */
  lemma {:induction false} FirstReport(m: Members, at: Slots)
    requires ServerMembers(m)
    ensures var trace := ServerTrace(m, at);
      (Reports(m) <==> trace != []) && (trace != [] ==> trace[0].server == at.server)
    decreases m
  {
    if m.Member? && m.val.Arr? {
      ArrayTrace(m, at);
      FirstPlayerReport(m.val.items, at);
      FirstReport(m.rest, Slots(at.server, at.player + Count(m.val.items)));
    }
  }

  /** And within range, if there is room for it. */
  lemma {:induction false} FirstReportFits(m: Members, n: nat, at: Slots)
    requires ServerMembers(m) && RoomFor(m, n, at.player) && ServerTrace(m, at) != []
    ensures ServerTrace(m, at)[0].player < MAX_PLAYERS
    decreases m
  {
    if m.val.Arr? {
      ArrayTrace(m, at);
      if PlayersTrace(m.val.items, at) == [] {
        FirstReportFits(m.rest, n + Present(m.val.items), Slots(at.server, at.player + Count(m.val.items)));
      } else {
        FirstPlayerFits(m.val.items, n, at);
      }
    }
  }

  lemma {:induction false} SilentServerIsOpen(m: Members)
    requires ServerMembers(m) && !Reports(m)
    ensures !EndsWithWord(m)
  {
    if m.Member? {
      SilentServerIsOpen(m.rest);
    }
  }

  lemma {:induction false} SilentServers(lib: Library, items: Items, server: nat)
    requires ServerItems(items) && AllHaveRoom(items) && Reporting(items) == 0
    ensures ServersTrace(items, server) == [] && ReadServers(lib, items) == [] && ClosedServers(items, server) == []
    decreases items
  {
    if items.Item? {
      FirstReport(items.val.members, Slots(server, 0));
      SilentServerIsOpen(items.val.members);
      SilentServers(lib, items.rest, server + 1);
    }
  }

  /** The servers have been read into the games from `t.servers` on, and those before are as they were. */
  predicate AreRead(lib: Library, t: Table, items: Items, a: Answer)
    requires ServerItems(items) && AllHaveRoom(items) && t.servers + Reporting(items) <= |t.games|
  {
    && !a.stop && a.table.servers == t.servers + Reporting(items) && |a.table.games| == |t.games|
    && a.table.games[..a.table.servers] == t.games[..t.servers] + ReadServers(lib, items)
    && a.table.rows == t.rows + ClosedServers(items, t.servers)
  }

  /** One server is read into its own game, the next one. */
  predicate OneIsRead(lib: Library, t: Table, m: Members, a: Answer)
    requires ServerMembers(m) && RoomFor(m, 0, 0) && t.servers < |t.games|
  {
    RosterFits(lib, m);
    && !a.stop && a.table.servers == t.servers + 1 && |a.table.games| == |t.games|
    && a.table.games[..t.servers + 1] == t.games[..t.servers] + [ReadServer(lib, m)]
    && a.table.rows == t.rows + if EndsWithWord(m) then [t.servers] else []
  }

  /** The table a server leaves, if it has been filled as the direct reading says. */
  lemma FilledIsRead(lib: Library, t: Table, m: Members, filled: GameInfo, n: nat)
    requires GoodTable(t) && t.servers < MAX_SERVERS && ServerMembers(m) && RoomFor(m, 0, 0)
    requires |Roster(lib, m)| <= MAX_PLAYERS
    requires filled ==
      GameInfo(FoldFields(lib, NoInfo(), m), "", RosterLasts(m),
               Roster(lib, m) + NoGame().playerinfo[|Roster(lib, m)|..])
    ensures OneIsRead(lib, t, m, Answer(false, ClosedIf(At(OpenServer(t, t.servers), filled, n), EndsWithWord(m))))
  {
    var full := At(OpenServer(t, t.servers), filled, n);
    var read := ReadServer(lib, m);
    var games := ClosedIf(full, EndsWithWord(m)).games;
    assert full.games == t.games[t.servers := filled];
    assert games == t.games[t.servers := read];
    assert games[..t.servers + 1] == t.games[..t.servers] + [read];
    assert t.rows + [] == t.rows;
  }

  lemma ServerOpened(lib: Library, t: Table, r: Record)
    requires GoodTable(t) && r.server == t.servers < MAX_SERVERS && r.player < MAX_PLAYERS
    ensures var o := OpenServer(t, t.servers);
      AtServer(o, NoGame(), 0) && At(o, NoGame(), 0) == o && Consume(lib, t, r, true) == Consume(lib, o, r, true)
  {
    var o := OpenServer(t, t.servers);
    assert o.games[o.game := NoGame()] == o.games;
  }

  /** A server object is read into its own game, zeroed first. */
  lemma ServerIsRead(lib: Library, step: Step, t: Table, m: Members)
    requires Steps(lib, step)
    requires GoodTable(t) && t.servers < MAX_SERVERS && ServerMembers(m) && Reports(m) && RoomFor(m, 0, 0)
    ensures OneIsRead(lib, t, m, Feed(step, t, ServerTrace(m, Slots(t.servers, 0))))
  {
    var trace := ServerTrace(m, Slots(t.servers, 0));
    RosterFits(lib, m);
    RoomIsEnough(m, 0, 0);
    FirstReport(m, Slots(t.servers, 0));
    FirstReportFits(m, 0, Slots(t.servers, 0));
    ServerOpened(lib, t, trace[0]);
    var o := OpenServer(t, t.servers);
    SameFirstStep(step, t, o, trace);
    ServerRecords(lib, step, o, NoGame(), 0, 0, m);
    FillServerReads(lib, NoGame(), m, 0);
    PlacedBetween(NoGame().playerinfo, 0, Roster(lib, m));
    FilledIsRead(lib, t, m, FillServer(lib, NoGame(), m, 0), PlayerTotal(m));
  }

  lemma Regroup<T>(before: seq<T>, first: seq<T>, rest: seq<T>)
    ensures before + first + rest == before + (first + rest)
  {
  }

  lemma OneThenRest(lib: Library, t: Table, items: Items, first: Answer, all: Answer)
    requires items.Item? && ServerItems(items) && AllHaveRoom(items) && Reports(items.val.members)
    requires t.servers + Reporting(items) <= |t.games|
    requires OneIsRead(lib, t, items.val.members, first)
    requires AreRead(lib, first.table, items.rest, all)
    ensures AreRead(lib, t, items, all)
  {
    var m := items.val.members;
    RosterFits(lib, m);
    Regroup(t.games[..t.servers], [ReadServer(lib, m)], ReadServers(lib, items.rest));
    Regroup(t.rows, if EndsWithWord(m) then [t.servers] else [], ClosedServers(items.rest, t.servers + 1));
  }

  lemma {:induction false} ServersAreRead(lib: Library, step: Step, t: Table, items: Items)
    requires Steps(lib, step)
    requires GoodTable(t) && ServerItems(items) && Acceptable(items, t.servers)
    ensures AreRead(lib, t, items, Feed(step, t, ServersTrace(items, t.servers)))
    decreases items
  {
    if Reporting(items) == 0 {
      SilentServers(lib, items, t.servers);
      assert t.rows + [] == t.rows;
      assert t.games[..t.servers] + [] == t.games[..t.servers];
    } else {
      ServerIsRead(lib, step, t, items.val.members);
      var inner, rest := ServerTrace(items.val.members, Slots(t.servers, 0)), ServersTrace(items.rest, t.servers + 1);
      var first := Feed(step, t, inner);
      FeedKeepsGood(lib, step, t, inner);
      ServersAreRead(lib, step, first.table, items.rest);
      FeedConcat(step, t, inner, rest);
      OneThenRest(lib, t, items, first, Feed(step, first.table, rest));
    }
  }

  /** Parser plus consumer equals the direct reading: for a lobby that skips no index, with at most 128 servers that
      report something and room for their players, no callback is answered with a stop, and the table holds exactly one
      game per reporting server, read from zero, with one row for each server that its last value closes. */
  lemma LobbyIsRead(lib: Library, t: Table, root: Node)
    requires GoodTable(t) && Lobby(root) && WalkDocument(root).ok && Acceptable(root.members.val.items, 0)
    ensures var items := root.members.val.items;
      var a := ConsumeAll(lib, Begin(t), WalkDocument(root).trace);
      && !a.stop && a.table.servers == Reporting(items)
      && a.table.games[..a.table.servers] == ReadServers(lib, items)
      && a.table.rows == ClosedServers(items, 0)
  {
    var items := root.members.val.items;
    LobbyTrace(root);
    StepsOf(lib);
    FeedIsConsumeAll(lib, Begin(t), ServersTrace(items, 0));
    ServersAreRead(lib, StepOf(lib), Begin(t), items);
    assert [] + ClosedServers(items, 0) == ClosedServers(items, 0);
    assert t.games[..0] + ReadServers(lib, items) == ReadServers(lib, items);
  }

  // ---------------------------------------------------------------- what is refused

  lemma RefusedAtOnce(lib: Library, step: Step, t: Table, trace: seq<Record>)
    requires Steps(lib, step)
    requires GoodTable(t) && trace != [] && (trace[0].server >= MAX_SERVERS || trace[0].player >= MAX_PLAYERS)
    ensures Feed(step, t, trace).stop
  {
    assert Consume(lib, t, trace[0], true).stop;
  }

  lemma StopsWithin(step: Step, t: Table, a: seq<Record>, b: seq<Record>)
    requires Feed(step, t, a).stop
    ensures Feed(step, t, a + b).stop
  {
    FeedConcat(step, t, a, b);
  }

  lemma ThenStops(step: Step, t1: Table, a: seq<Record>, t2: Table, b: seq<Record>)
    requires Feed(step, t1, a) == Answer(false, t2) && Feed(step, t2, b).stop
    ensures Feed(step, t1, a + b).stop
  {
    FeedConcat(step, t1, a, b);
  }

  /** A player after sixteen, or after one that reported nothing. */
  lemma {:induction false} PlayersRefused(lib: Library, step: Step, t: Table, g: GameInfo, n: nat, p: nat, items: Items)
    requires Steps(lib, step)
    requires AtServer(t, g, n) && n <= p && PlayerItems(items) && !PlayersFollow(items, n, p)
    ensures GoodTable(At(t, g, n)) && Feed(step, At(t, g, n), PlayersTrace(items, Slots(t.game, p))).stop
    decreases items
  {
    var at, m := Slots(t.game, p), items.val.members;
    var first, rest := PlayerTrace(m, at), PlayersTrace(items.rest, Slots(t.game, p + 1));
    if m.NoMember? {
      PlayersRefused(lib, step, t, g, n, p + 1, items.rest);
      assert [] + rest == rest;
    } else if n < p || p >= MAX_PLAYERS {
      PlayerRefused(lib, step, At(t, g, n), first + rest);
    } else {
      var g1 := AddPlayer(lib, g, m, n);
      OnePlayer(lib, step, t, g, n, m);
      PlayersRefused(lib, step, t, g1, n + 1, p + 1, items.rest);
      ThenStops(step, At(t, g, n), first, At(t, g1, n + 1), rest);
    }
  }

  lemma PlayerRefused(lib: Library, step: Step, t: Table, trace: seq<Record>)
    requires Steps(lib, step)
    requires GoodTable(t) && t.servers == t.game + 1 && trace != [] && trace[0].isPlayer && trace[0].server == t.game
    requires trace[0].player > t.players || trace[0].player >= MAX_PLAYERS
    ensures Feed(step, t, trace).stop
  {
    assert Consume(lib, t, trace[0], true).stop;
  }

  lemma ArrayRefused(lib: Library, step: Step, t: Table, g: GameInfo, n: nat, p: nat, m: Members)
    requires Steps(lib, step)
    requires AtServer(t, g, n) && n <= p && ServerMembers(m) && m.Member? && m.val.Arr?
    requires !PlayersFollow(m.val.items, n, p)
    ensures GoodTable(At(t, g, n)) && Feed(step, At(t, g, n), ServerTrace(m, Slots(t.game, p))).stop
  {
    var at := Slots(t.game, p);
    PlayersRefused(lib, step, t, g, n, p, m.val.items);
    StopsWithin(step, At(t, g, n), PlayersTrace(m.val.items, at),
                ServerTrace(m.rest, Slots(t.game, p + Count(m.val.items))));
    ArrayTrace(m, at);
  }

  /** A field after sixteen players, or a player that may not follow. */
  lemma {:induction false} ServerRefused(lib: Library, step: Step, t: Table, g: GameInfo, n: nat, p: nat, m: Members)
    requires Steps(lib, step)
    requires AtServer(t, g, n) && n <= p && ServerMembers(m) && !RoomFor(m, n, p)
    ensures GoodTable(At(t, g, n)) && Feed(step, At(t, g, n), ServerTrace(m, Slots(t.game, p))).stop
    decreases m
  {
    if m.val.Arr? {
      if PlayersFollow(m.val.items, n, p) {
        FollowersFit(m.val.items, n, p);
        var g1, n1, p1 := AddPlayers(lib, g, m.val.items, n), n + Present(m.val.items), p + Count(m.val.items);
        ServerRefused(lib, step, t, g1, n1, p1, m.rest);
        ArrayRecords(lib, step, t, g, n, p, m, Feed(step, At(t, g1, n1), ServerTrace(m.rest, Slots(t.game, p1))));
      } else {
        ArrayRefused(lib, step, t, g, n, p, m);
      }
    } else {
      FieldRefused(lib, step, t, g, n, p, m);
    }
  }

  lemma {:induction false} FieldRefused(lib: Library, step: Step, t: Table, g: GameInfo, n: nat, p: nat, m: Members)
    requires Steps(lib, step)
    requires AtServer(t, g, n) && n <= p && ServerMembers(m) && m.Member? && Scalar(m.val) && !RoomFor(m, n, p)
    ensures GoodTable(At(t, g, n)) && Feed(step, At(t, g, n), ServerTrace(m, Slots(t.game, p))).stop
    decreases m, 0
  {
    var at := Slots(t.game, p);
    var r, rest := FirstRecord(m, 3, at), ServerTrace(m.rest, at);
    if p >= MAX_PLAYERS {
      RefusedAtOnce(lib, step, At(t, g, n), [r] + rest);
    } else {
      assert ([r] + rest)[1..] == rest;
      FieldStored(lib, t, g, n, p, r);
      ServerRefused(lib, step, t, WithField(lib, g, m), n, p, m.rest);
    }
  }

  /** A server that reports something makes the first callback of those that follow it. */
  lemma {:induction false} LaterServer(items: Items, server: nat)
    requires ServerItems(items) && Reporting(items) > 0
    ensures ServersTrace(items, server) != [] && ServersTrace(items, server)[0].server >= server
    decreases items
  {
    var first, rest := ServerTrace(items.val.members, Slots(server, 0)), ServersTrace(items.rest, server + 1);
    FirstReport(items.val.members, Slots(server, 0));
    if first == [] {
      LaterServer(items.rest, server + 1);
      assert first + rest == rest;
    } else {
      assert (first + rest)[0] == first[0];
    }
  }

  lemma ServerSkipped(lib: Library, step: Step, t: Table, trace: seq<Record>)
    requires Steps(lib, step)
    requires GoodTable(t) && trace != [] && (trace[0].server > t.servers || trace[0].server >= MAX_SERVERS)
    ensures Feed(step, t, trace).stop
  {
    assert Consume(lib, t, trace[0], true).stop;
  }

  /** A server that has no room for its players. */
  lemma OneServerRefused(lib: Library, step: Step, t: Table, m: Members)
    requires Steps(lib, step)
    requires GoodTable(t) && t.servers < MAX_SERVERS && ServerMembers(m) && Reports(m) && !RoomFor(m, 0, 0)
    ensures Feed(step, t, ServerTrace(m, Slots(t.servers, 0))).stop
  {
    var trace := ServerTrace(m, Slots(t.servers, 0));
    FirstReport(m, Slots(t.servers, 0));
    if trace[0].player >= MAX_PLAYERS {
      RefusedAtOnce(lib, step, t, trace);
    } else {
      var o := OpenServer(t, t.servers);
      ServerOpened(lib, t, trace[0]);
      SameFirstStep(step, t, o, trace);
      ServerRefused(lib, step, o, NoGame(), 0, 0, m);
    }
  }

  lemma {:induction false} SilentHasRoom(m: Members, n: nat, p: nat)
    requires ServerMembers(m) && !Reports(m)
    ensures RoomFor(m, n, p)
    decreases m
  {
    if m.Member? {
      SilentPlayersFollow(m.val.items, n, p);
      SilentHasRoom(m.rest, n, p + Count(m.val.items));
    }
  }

  lemma {:induction false} SilentPlayersFollow(items: Items, n: nat, p: nat)
    requires PlayerItems(items) && Present(items) == 0
    ensures PlayersFollow(items, n, p)
    decreases items
  {
    if items.Item? {
      SilentPlayersFollow(items.rest, n, p + 1);
    }
  }

  lemma {:induction false} SilentAreAcceptable(items: Items)
    requires ServerItems(items) && Reporting(items) == 0
    ensures AllHaveRoom(items) && SilentAtTheEnd(items)
  {
    if items.Item? {
      SilentHasRoom(items.val.members, 0, 0);
      SilentAreAcceptable(items.rest);
    }
  }

  /** A server that reports nothing, and later one that does. */
  lemma ServerAfterSilence(lib: Library, step: Step, t: Table, items: Items)
    requires Steps(lib, step)
    requires GoodTable(t) && items.Item? && ServerItems(items) && !Reports(items.val.members)
    requires t.servers <= MAX_SERVERS && !Acceptable(items, t.servers)
    ensures Feed(step, t, ServersTrace(items, t.servers)).stop
  {
    var m, rest := items.val.members, ServersTrace(items.rest, t.servers + 1);
    FirstReport(m, Slots(t.servers, 0));
    assert [] + rest == rest;
    SilentHasRoom(m, 0, 0);
    if Reporting(items.rest) == 0 {
      SilentAreAcceptable(items.rest);
      assert false;
    } else {
      LaterServer(items.rest, t.servers + 1);
      ServerSkipped(lib, step, t, rest);
    }
  }

  lemma {:induction false} ServersRefused(lib: Library, step: Step, t: Table, items: Items)
    requires Steps(lib, step)
    requires GoodTable(t) && ServerItems(items) && !Acceptable(items, t.servers)
    ensures Feed(step, t, ServersTrace(items, t.servers)).stop
    decreases items
  {
    var m, at := items.val.members, Slots(t.servers, 0);
    if !Reports(m) {
      ServerAfterSilence(lib, step, t, items);
    } else {
      var first, rest := ServerTrace(m, at), ServersTrace(items.rest, t.servers + 1);
      FirstReport(m, at);
      if t.servers == MAX_SERVERS {
        RefusedAtOnce(lib, step, t, first + rest);
      } else if !RoomFor(m, 0, 0) {
        OneServerRefused(lib, step, t, m);
        StopsWithin(step, t, first, rest);
      } else {
        ServerIsRead(lib, step, t, m);
        var next := Feed(step, t, first).table;
        FeedKeepsGood(lib, step, t, first);
        ServersRefused(lib, step, next, items.rest);
        ThenStops(step, t, first, next, rest);
      }
    }
  }

  /** The conditions are exact: a callback is answered with a stop if more than 128 servers report something, if a field
      or a reporting player comes after sixteen players of its server, or if a server or a player that reports something
      comes after one that does not, and otherwise not. */
  lemma LobbyIsAcceptedIff(lib: Library, t: Table, root: Node)
    requires GoodTable(t) && Lobby(root) && WalkDocument(root).ok
    ensures !ConsumeAll(lib, Begin(t), WalkDocument(root).trace).stop <==> Acceptable(root.members.val.items, 0)
  {
    var items := root.members.val.items;
    if Acceptable(items, 0) {
      LobbyIsRead(lib, t, root);
    } else {
      LobbyTrace(root);
      StepsOf(lib);
      FeedIsConsumeAll(lib, Begin(t), ServersTrace(items, 0));
      ServersRefused(lib, StepOf(lib), Begin(t), items);
    }
  }

  /** An empty server object, and then one that is not. */
  const SKIPPING_LOBBY: Node :=
    Obj("", Member("", "G", "", "", Arr("", Item("", Obj("", NoMember), "",
      Item("", Obj("", Member("", "n", "", "", Word("x"), "", NoMember)), "", NoItem))), "", NoMember))

  lemma SkippedServerIsRefused(lib: Library, t: Table)
    requires GoodTable(t)
    ensures Lobby(SKIPPING_LOBBY) && Printable(SKIPPING_LOBBY) && WalkDocument(SKIPPING_LOBBY).ok
    ensures ConsumeAll(lib, Begin(t), WalkDocument(SKIPPING_LOBBY).trace).stop
  {
    var items := SKIPPING_LOBBY.members.val.items;
    var second := items.rest;
    assert Reports(second.val.members) && second.rest.NoItem? && Reporting(second) == 1;
    var m, at := SKIPPING_LOBBY.members, Slots(0, 0);
    assert WalkMembers(second.val.members, 3, Slots(1, 0)).ok;
    assert WalkItems(second, 2, Slots(1, 0)).ok;
    var empty := Walk(items.val, "", 2, true, ',', at);
    assert WalkMembers(items.val.members, 3, at) == Walked(true, [], at);
    assert empty == Walked(true, [], Slots(1, 0));
    assert WalkItems(items, 2, at).ok;
    assert Walk(m.val, m.key, 1, false, '}', at) == WalkItems(items, 2, at);
    assert WalkMembers(m.rest, 1, WalkItems(items, 2, at).at).ok;
    LobbyIsAcceptedIff(lib, t, SKIPPING_LOBBY);
  }

  /** A server whose only field is quoted. */
  const QUOTED_LOBBY: Node :=
    Obj("", Member("", "G", "", "", Arr("", Item("", Obj("", Member("", "n", "", "", Text("x"), "", NoMember)), "",
      NoItem)), "", NoMember))

  lemma QuotedLobbyIsRead()
    ensures Lobby(QUOTED_LOBBY) && Printable(QUOTED_LOBBY) && WalkDocument(QUOTED_LOBBY).ok
    ensures Acceptable(QUOTED_LOBBY.members.val.items, 0)
  {
    var m, at := QUOTED_LOBBY.members, Slots(0, 0);
    var items := m.val.items;
    var server := items.val.members;
    assert Reports(server) && items.rest.NoItem? && Reporting(items) == 1;
    assert WalkMembers(server, 3, at).ok && WalkMembers(server.rest, 3, at).ok;
    assert WalkItems(items, 2, at).ok;
    assert Walk(m.val, m.key, 1, false, '}', at) == WalkItems(items, 2, at);
    assert WalkMembers(m.rest, 1, WalkItems(items, 2, at).at).ok;
    assert RoomFor(server.rest, 0, 0) && AllHaveRoom(items.rest) && SilentAtTheEnd(items.rest);
  }

  /** It fills a game and shows no row. */
  lemma QuotedServerHasNoRow(lib: Library, t: Table)
    requires GoodTable(t)
    ensures var a := ConsumeAll(lib, Begin(t), WalkDocument(QUOTED_LOBBY).trace);
      !a.stop && a.table.servers == 1 && a.table.rows == []
  {
    QuotedLobbyIsRead();
    LobbyIsRead(lib, t, QUOTED_LOBBY);
    var items := QUOTED_LOBBY.members.val.items;
    assert Reporting(items) == 1 && !EndsWithWord(items.val.members) && ClosedServers(items.rest, 1) == [];
  }

  lemma LobbyTrace(root: Node)
    requires Lobby(root) && WalkDocument(root).ok
    ensures WalkDocument(root).trace == ServersTrace(root.members.val.items, 0)
  {
    var m, items := root.members, root.members.val.items;
    var w := WalkItems(items, 2, Slots(0, 0));
    assert Walk(m.val, m.key, 1, false, '}', Slots(0, 0)) == w;
    assert WalkMembers(m.rest, 1, w.at) == Walked(true, [], w.at);
    assert w.ok && WalkDocument(root) == AndThen(w, Walked(true, [], w.at));
    assert w.trace + [] == w.trace;
    ServersWalk(items, 0);
  }
}
