/** Lobby files scanned one after the other, and a listener that only hears what the scans announce. */
module LobbyReplay {
  import opened CStrings
  import opened ParserSpec
  import opened ParserRuns
  import opened Document
  import opened SessionTable
  import opened Notifications
  import opened DirectReading
  import opened LobbyScan
  import opened WholeScan

  // ---------------------------------------------------------------- identified servers

  /** What identifies a server: the hash of the last value under its key for that, and zero if there is none. */
  function GameId(d: Decoders, m: Members): nat {
    match LastValue(d.serverKey, m, SERVERKEY_G)
    case Missing => 0
    case Given(v) => d.identify(v)
  }

  /** Every server that reports something ends with a bare value, and is identified. */
  predicate Identified(d: Decoders, items: Items)
    requires ServerItems(items)
  {
    items.Item? ==>
      && (Reports(items.val.members) ==> EndsWithWord(items.val.members) && GameId(d, items.val.members) != 0)
      && Identified(d, items.rest)
  }

  function GameIds(d: Decoders, items: Items): set<nat>
    requires ServerItems(items)
  {
    if items.NoItem? then {}
    else (if Reports(items.val.members) then {GameId(d, items.val.members)} else {}) + GameIds(d, items.rest)
  }

  lemma ServerIsIdentified(d: Decoders, m: Members)
    requires ServerMembers(m)
    ensures FoldFields(Standard(d), NoInfo(), m).uniqueIdentifier == GameId(d, m)
  {
    var field, put := (g: ServerInfo) => g.uniqueIdentifier, (v: string) => d.identify(v);
    assert IsField(d, SERVERKEY_G, field, put);
    LastValueWins(d, SERVERKEY_G, field, put, NoInfo(), m);
  }

  lemma IdsOfMore(g: GameInfo, games: seq<GameInfo>)
    ensures IdsOf([g] + games) == {g.info.uniqueIdentifier} + IdsOf(games)
  {
    IdsOfFirst([g] + games);
    assert ([g] + games)[1..] == games;
  }

  lemma {:induction false} ServersAreIdentified(d: Decoders, items: Items)
    requires ServerItems(items) && AllHaveRoom(items)
    ensures IdsOf(ReadServers(Standard(d), items)) == GameIds(d, items)
    ensures Identified(d, items) ==> 0 !in GameIds(d, items)
  {
    if items.Item? {
      var m, rest := items.val.members, ReadServers(Standard(d), items.rest);
      ServersAreIdentified(d, items.rest);
      if Reports(m) {
        RosterFits(Standard(d), m);
        ServerIsIdentified(d, m);
        IdsOfMore(ReadServer(Standard(d), m), rest);
      } else {
        assert [] + rest == rest;
      }
    }
  }

  /** All servers that report get a row, and they are the first ones. */
  lemma {:induction false} AllAreClosed(d: Decoders, items: Items, n: nat)
    requires ServerItems(items) && SilentAtTheEnd(items) && Identified(d, items)
    ensures var rows := ClosedServers(items, n);
      |rows| == Reporting(items) && forall i :: 0 <= i < |rows| ==> rows[i] == n + i
    decreases items
  {
    if items.Item? {
      AllAreClosed(d, items.rest, n + 1);
      if !Reports(items.val.members) {
        SilentServerIsOpen(items.val.members);
      }
    }
  }

  /** A lobby whose servers are identified leaves a table in which every game is visible and has an identifier. */
  lemma LobbyCloses(d: Decoders, t: Table, root: Node)
    requires GoodTable(t) && ScannableLobby(root) && Identified(d, root.members.val.items)
    ensures var c := ConsumeAll(Standard(d), Begin(t), WalkDocument(root).trace).table;
      Notifications.Closed(c) && TableIds(c) == GameIds(d, root.members.val.items)
  {
    var items := root.members.val.items;
    LobbyAccepted(root);
    LobbyIsRead(Standard(d), t, root);
    AllAreClosed(d, items, 0);
    ServersAreIdentified(d, items);
    var c := ConsumeAll(Standard(d), Begin(t), WalkDocument(root).trace).table;
    forall g | 0 <= g < c.servers ensures g in c.rows && c.games[g].info.uniqueIdentifier != 0 {
      assert c.rows[g] == g;
      assert c.games[..c.servers][g].info.uniqueIdentifier in IdsOf(c.games[..c.servers]);
    }
  }

  // ---------------------------------------------------------------- one file after the other

  datatype LobbyFile = LobbyFile(root: Node, lead: string, trail: string, chunks: seq<string>)

  /** A scannable lobby whose servers are identified, cut into any chunks. */
  predicate Watchable(d: Decoders, f: LobbyFile) {
    && ScannableLobby(f.root) && Identified(d, f.root.members.val.items) && AllSpace(f.lead) && AllSpace(f.trail)
    && Joined(f.chunks) == f.lead + Print(f.root) + f.trail
    && forall j :: 0 <= j < |f.chunks| ==> f.chunks[j] != ""
  }

  /** The games of the document. */
  function IdsIn(d: Decoders, f: LobbyFile): set<nat>
    requires Watchable(d, f)
  {
    GameIds(d, f.root.members.val.items)
  }

  predicate AllWatchable(d: Decoders, files: seq<LobbyFile>) {
    files != [] ==> Watchable(d, files[0]) && AllWatchable(d, files[1..])
  }

  /** The games of the last document, or those given if there is none. */
  function LastIds(d: Decoders, ids: set<nat>, files: seq<LobbyFile>): set<nat>
    requires AllWatchable(d, files)
    decreases |files|
  {
    if files == [] then ids else LastIds(d, IdsIn(d, files[0]), files[1..])
  }

  /** The callbacks of a scan of the file, whose consumer starts from `t`. */
  function FileTrace(lib: Library, t: Table, f: LobbyFile): seq<Record>
    requires GoodTable(t)
  {
    Parse(Answers(lib, Begin(t)), false, ReadsOf(f.chunks)).trace
  }

  function FileTraces(lib: Library, t: Table, files: seq<LobbyFile>): seq<seq<Record>>
    requires GoodTable(t)
    decreases |files|
  {
    if files == [] then []
    else
      var trace := FileTrace(lib, t, files[0]);
      [trace] + FileTraces(lib, RunScan(lib, t, trace), files[1..])
  }

  lemma FileCloses(d: Decoders, t: Table, f: LobbyFile)
    requires GoodTable(t) && Watchable(d, f)
    ensures var trace := FileTrace(Standard(d), t, f);
      && Ordered(trace) && NothingUnseen(Standard(d), t, trace)
      && TableIds(RunScan(Standard(d), t, trace)) == IdsIn(d, f)
  {
    var lib := Standard(d);
    TraceOrder(Answers(lib, Begin(t)), false, ReadsOf(f.chunks));
    LobbyCloses(d, t, f.root);
    LobbyFileTrace(lib, t, f.root, f.lead, f.trail, f.chunks);
    ClosedIsSeen(lib, t, FileTrace(lib, t, f));
  }

  lemma {:induction false} FilesClose(d: Decoders, t: Table, files: seq<LobbyFile>)
    requires GoodTable(t) && AllWatchable(d, files)
    ensures var traces := FileTraces(Standard(d), t, files);
      && AllSeen(Standard(d), t, traces)
      && TableIds(RunScans(Standard(d), t, traces)) == LastIds(d, TableIds(t), files)
    decreases |files|
  {
    if files != [] {
      var lib := Standard(d);
      var trace := FileTrace(lib, t, files[0]);
      var next := RunScan(lib, t, trace);
      FileCloses(d, t, files[0]);
      FilesClose(d, next, files[1..]);
      var traces := FileTraces(lib, t, files);
      assert traces[0] == trace && traces[1..] == FileTraces(lib, next, files[1..]);
    }
  }

  /** From the bytes of any lobby files, in any chunks, to a listener: whoever held the table's games at first holds
      exactly the games of the last document after its scan. */
  lemma ListenerHoldsTheLobby(d: Decoders, t: Table, files: seq<LobbyFile>)
    requires GoodTable(t) && AllWatchable(d, files)
    ensures var r := RunScans(Standard(d), t, FileTraces(Standard(d), t, files));
      && t.notes <= r.notes
      && Listen(TableIds(t), r.notes[|t.notes|..]) == LastIds(d, TableIds(t), files)
  {
    FilesClose(d, t, files);
    ListenerHoldsTheTable(Standard(d), t, FileTraces(Standard(d), t, files));
  }
}
