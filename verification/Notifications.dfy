/** What a completed scan announces, compared with how the table has changed. */
module Notifications {
  import opened ParserSpec
  import opened ParserRuns
  import opened SessionTable
  import opened FrozenRows

  // ---------------------------------------------------------------- the end of a scan

  function CountedPlayers(g: GameInfo): seq<PlayerInfo> {
    g.playerinfo[..Counted(g)]
  }

  /** Who left? */
  function Quits(players: seq<PlayerInfo>, new_: GameInfo): seq<Note> {
    if players == [] then []
    else
      (if FindPlayer(new_, players[0].uniqueIdentifier) == Counted(new_) then
        [PlayerQuit(new_.info.uniqueIdentifier, players[0])] else [])
      + Quits(players[1..], new_)
  }

  /** Who joined, or changed nick? */
  function Arrivals(old_: GameInfo, new_: GameInfo, players: seq<PlayerInfo>): seq<Note> {
    if players == [] then []
    else ArrivalOf(old_, new_, players[0]) + Arrivals(old_, new_, players[1..])
  }

  function ArrivalOf(old_: GameInfo, new_: GameInfo, p: PlayerInfo): seq<Note> {
    var i := FindPlayer(old_, p.uniqueIdentifier);
    if i == Counted(old_) then [PlayerJoined(new_.info.uniqueIdentifier, p)]
    else if old_.playerinfo[i].ingameName != p.ingameName then
      [NickChanged(new_.info.uniqueIdentifier, old_.playerinfo[i], p)]
    else []
  }

  function PlayerNotes(old_: GameInfo, new_: GameInfo): seq<Note> {
    Quits(CountedPlayers(old_), new_) + Arrivals(old_, new_, CountedPlayers(new_))
  }

  function OldGameNotes(games: seq<GameInfo>, servers: nat, old_: GameInfo): seq<Note>
    requires servers <= |games|
  {
    var i := FindGame(games, servers, old_.info.uniqueIdentifier);
    if i == servers then [GameQuit(old_.info.uniqueIdentifier)] else PlayerNotes(old_, games[i])
  }

  function EndNotes(games: seq<GameInfo>, servers: nat, prev: seq<GameInfo>): seq<Note>
    requires servers <= |games|
  {
    if prev == [] then [] else OldGameNotes(games, servers, prev[0]) + EndNotes(games, servers, prev[1..])
  }

  /** `ProcessSessionInfo` on `KVI_STATUS_COMPLETE` or `KVI_STATUS_ERROR`. */
  function Finish(t: Table): Table
    requires GoodTable(t)
  {
    t.(notes := t.notes + EndNotes(t.games, t.servers, t.prev[..t.prevCount]))
  }

  function RunScan(lib: Library, t: Table, trace: seq<Record>): (r: Table)
    requires GoodTable(t)
    ensures GoodTable(r)
  {
    Finish(ConsumeAll(lib, Begin(t), trace).table)
  }

  // ---------------------------------------------------------------- a listener

  /** A listener that applies the announcements of games that appear and go. */
  function Hear(ids: set<nat>, note: Note): set<nat> {
    match note
    case GameNew(id) => ids + {id}
    case GameQuit(id) => ids - {id}
    case _ => ids
  }

  function Listen(ids: set<nat>, notes: seq<Note>): set<nat>
    decreases |notes|
  {
    if notes == [] then ids else Listen(Hear(ids, notes[0]), notes[1..])
  }

  lemma {:induction false} ListenConcat(ids: set<nat>, a: seq<Note>, b: seq<Note>)
    ensures Listen(ids, a + b) == Listen(Listen(ids, a), b)
    decreases |a|
  {
    if a == [] {
      assert a + b == b;
    } else {
      assert (a + b)[1..] == a[1..] + b;
      ListenConcat(Hear(ids, a[0]), a[1..], b);
    }
  }

  function IdsOf(games: seq<GameInfo>): set<nat> {
    set i | 0 <= i < |games| :: games[i].info.uniqueIdentifier
  }

  predicate IsPlayerNote(n: Note) {
    !n.GameNew? && !n.GameQuit?
  }

  lemma {:induction false} ListenIgnoresPlayers(ids: set<nat>, notes: seq<Note>)
    requires forall i :: 0 <= i < |notes| ==> IsPlayerNote(notes[i])
    ensures Listen(ids, notes) == ids
    decreases |notes|
  {
    if notes != [] {
      ListenIgnoresPlayers(ids, notes[1..]);
    }
  }

  lemma {:induction false} QuitsArePlayerNotes(players: seq<PlayerInfo>, new_: GameInfo)
    ensures forall i :: 0 <= i < |Quits(players, new_)| ==> IsPlayerNote(Quits(players, new_)[i])
  {
    if players != [] {
      QuitsArePlayerNotes(players[1..], new_);
    }
  }

  lemma {:induction false} ArrivalsArePlayerNotes(old_: GameInfo, new_: GameInfo, players: seq<PlayerInfo>)
    ensures forall i :: 0 <= i < |Arrivals(old_, new_, players)| ==> IsPlayerNote(Arrivals(old_, new_, players)[i])
  {
    if players != [] {
      ArrivalsArePlayerNotes(old_, new_, players[1..]);
    }
  }

  lemma ListenOldGame(ids: set<nat>, games: seq<GameInfo>, servers: nat, old_: GameInfo)
    requires servers <= |games|
    ensures Listen(ids, OldGameNotes(games, servers, old_)) ==
      if old_.info.uniqueIdentifier in IdsOf(games[..servers]) then ids else ids - {old_.info.uniqueIdentifier}
  {
    var id := old_.info.uniqueIdentifier;
    var i := FindGame(games, servers, id);
    if i < servers {
      assert games[..servers][i].info.uniqueIdentifier == id;
      QuitsArePlayerNotes(CountedPlayers(old_), games[i]);
      ArrivalsArePlayerNotes(old_, games[i], CountedPlayers(games[i]));
      ListenIgnoresPlayers(ids, PlayerNotes(old_, games[i]));
    } else {
      assert OldGameNotes(games, servers, old_)[1..] == [];
    }
  }

  lemma IdsOfFirst(prev: seq<GameInfo>)
    requires prev != []
    ensures IdsOf(prev) == {prev[0].info.uniqueIdentifier} + IdsOf(prev[1..])
  {
    assert forall i :: 1 <= i < |prev| ==> prev[i] == prev[1..][i - 1];
  }

  /** The end of a scan takes exactly the games away that are no longer in the table. */
  lemma {:induction false} ListenEnd(ids: set<nat>, games: seq<GameInfo>, servers: nat, prev: seq<GameInfo>)
    requires servers <= |games|
    ensures Listen(ids, EndNotes(games, servers, prev)) == ids - (IdsOf(prev) - IdsOf(games[..servers]))
    decreases |prev|
  {
    if prev != [] {
      var first := OldGameNotes(games, servers, prev[0]);
      ListenOldGame(ids, games, servers, prev[0]);
      ListenConcat(ids, first, EndNotes(games, servers, prev[1..]));
      ListenEnd(Listen(ids, first), games, servers, prev[1..]);
      IdsOfFirst(prev);
    }
  }

  // ---------------------------------------------------------------- during a scan

  /** The identifiers of the rows shown so far. */
  function RowIds(games: seq<GameInfo>, rows: seq<nat>): set<nat>
    requires forall i :: 0 <= i < |rows| ==> rows[i] < |games|
  {
    set i | 0 <= i < |rows| :: games[rows[i]].info.uniqueIdentifier
  }

  predicate RowsBelow(t: Table, bound: nat) {
    forall i :: 0 <= i < |t.rows| ==> t.rows[i] < bound
  }

  function PrevIds(t: Table): set<nat>
    requires t.prevCount <= |t.prev|
  {
    IdsOf(t.prev[..t.prevCount])
  }

  /** A listener that held the previous games when there were `n` notes now holds them and the rows shown since. */
  predicate Announced(t: Table, n: nat) {
    && GoodTable(t) && n <= |t.notes| && RowsBelow(t, MAX_SERVERS)
    && Listen(PrevIds(t), t.notes[n..]) == PrevIds(t) + (RowIds(t.games, t.rows) - {0})
  }

  lemma FindGameMisses(games: seq<GameInfo>, count: nat, id: nat)
    requires count <= |games|
    ensures FindGame(games, count, id) == count <==> id !in IdsOf(games[..count])
  {
    var i := FindGame(games, count, id);
    if i < count {
      assert games[..count][i].info.uniqueIdentifier == id;
    }
  }

  lemma ShowingARow(t: Table)
    requires GoodTable(t) && RowsBelow(t, t.game)
    ensures var c, id := CloseServer(t), t.games[t.game].info.uniqueIdentifier;
      RowsBelow(c, t.game + 1) && RowIds(c.games, c.rows) == RowIds(t.games, t.rows) + {id}
  {
    var c := CloseServer(t);
    assert c.rows[|t.rows|] == t.game;
    assert forall i :: 0 <= i < |t.rows| ==> c.rows[i] == t.rows[i] && c.games[c.rows[i]] == t.games[t.rows[i]];
  }

  lemma HearingARow(t: Table, n: nat)
    requires GoodTable(t) && n <= |t.notes|
    ensures var c, id := CloseServer(t), t.games[t.game].info.uniqueIdentifier;
      var held := Listen(PrevIds(t), t.notes[n..]);
      n <= |c.notes| && Listen(PrevIds(t), c.notes[n..]) == if id == 0 || id in PrevIds(t) then held else held + {id}
  {
    var c, id := CloseServer(t), t.games[t.game].info.uniqueIdentifier;
    FindGameMisses(t.prev, t.prevCount, id);
    var added := c.notes[|t.notes|..];
    assert c.notes[n..] == t.notes[n..] + added;
    ListenConcat(PrevIds(t), t.notes[n..], added);
    assert added != [] ==> added == [GameNew(id)] && added[1..] == [];
  }

  /** Closing a server announces it exactly if the listener does not hold it. */
  lemma CloseServerAnnounces(t: Table, n: nat)
    requires Announced(t, n) && RowsBelow(t, t.game)
    ensures Announced(CloseServer(t), n) && RowsBelow(CloseServer(t), t.game + 1)
  {
    ShowingARow(t);
    HearingARow(t, n);
  }

  /** Any change to games without rows keeps the listener right. */
  lemma OtherGamesDoNotMatter(t: Table, t': Table, n: nat)
    requires Announced(t, n) && GoodTable(t') && t'.rows == t.rows && t'.notes == t.notes
    requires t'.prev == t.prev && t'.prevCount == t.prevCount
    requires forall i :: 0 <= i < |t.rows| ==> t'.games[t.rows[i]] == t.games[t.rows[i]]
    ensures Announced(t', n)
  {
  }

  lemma ConsumeAnnounces(lib: Library, t: Table, r: Record, n: nat)
    requires Announced(t, n) && Current(t) && InStep(t, r) && RowsBelow(t, r.server)
    ensures Announced(Consume(lib, t, r, true).table, n)
    ensures RowsBelow(Consume(lib, t, r, true).table, r.server + 1)
    ensures !(r.status == Last && !r.isPlayer) ==> RowsBelow(Consume(lib, t, r, true).table, r.server)
  {
    ConsumeWritesItsOwnRow(lib, t, r, true);
    var a := Consume(lib, t, r, true);
    if !a.stop && r.status == Last && !r.isPlayer {
      var t1 := if r.server == t.servers then OpenServer(t, r.server) else t;
      var g := t1.games[t1.game];
      var stored := WithGame(t1, g.(info := lib.setServer(g.info, r.key, r.value)));
      OtherGamesDoNotMatter(t, stored, n);
      CloseServerAnnounces(stored, n);
      assert a.table == CloseServer(stored);
    } else {
      assert a.table.rows == t.rows;
      OtherGamesDoNotMatter(t, a.table, n);
    }
  }

  lemma {:induction false} ConsumeAllAnnounces(lib: Library, t: Table, trace: seq<Record>, n: nat)
    requires Announced(t, n) && Current(t) && Ordered(trace) && AllInStep(t, trace)
    requires forall i :: 0 <= i < |trace| ==> RowsBelow(t, trace[i].server)
    ensures Announced(ConsumeAll(lib, t, trace).table, n)
    decreases |trace|
  {
    if trace != [] {
      ConsumeWritesItsOwnRow(lib, t, trace[0], true);
      ConsumeAnnounces(lib, t, trace[0], n);
      OrderedTail(trace);
      var a := Consume(lib, t, trace[0], true);
      if !a.stop {
        forall i | 0 <= i < |trace[1..]| ensures RowsBelow(a.table, trace[1..][i].server) {
          assert MayPrecede(trace[0], trace[i + 1].server, trace[i + 1].player);
        }
        ConsumeAllAnnounces(lib, a.table, trace[1..], n);
      }
    }
  }

  lemma {:induction false} ConsumeAllKeepsPrev(lib: Library, t: Table, trace: seq<Record>)
    requires GoodTable(t)
    ensures var a := ConsumeAll(lib, t, trace); a.table.prev == t.prev && a.table.prevCount == t.prevCount
    decreases |trace|
  {
    if trace != [] {
      var a := Consume(lib, t, trace[0], true);
      if !a.stop {
        ConsumeAllKeepsPrev(lib, a.table, trace[1..]);
      }
    }
  }

  /** Every server of the table was closed by its LAST, and every game has an identifier. */
  predicate Closed(t: Table) {
    && GoodTable(t)
    && (forall g :: 0 <= g < t.servers ==> g in t.rows)
    && (forall i :: 0 <= i < |t.rows| ==> t.rows[i] < t.servers)
    && (forall g :: 0 <= g < t.servers ==> t.games[g].info.uniqueIdentifier != 0)
  }

  function TableIds(t: Table): set<nat>
    requires t.servers <= |t.games|
  {
    IdsOf(t.games[..t.servers])
  }

  lemma ClosedRowIds(t: Table)
    requires Closed(t)
    ensures RowIds(t.games, t.rows) - {0} == TableIds(t)
  {
    var games := t.games[..t.servers];
    forall id | id in IdsOf(games) ensures id in RowIds(t.games, t.rows) - {0} {
      var g :| 0 <= g < |games| && games[g].info.uniqueIdentifier == id;
      assert g in t.rows;
      var i :| 0 <= i < |t.rows| && t.rows[i] == g;
    }
    forall id | id in RowIds(t.games, t.rows) - {0} ensures id in IdsOf(games) {
      var i :| 0 <= i < |t.rows| && t.games[t.rows[i]].info.uniqueIdentifier == id;
      assert games[t.rows[i]].info.uniqueIdentifier == id;
    }
  }

  /** No row is shown for a server that has not been opened. */
  predicate RowsOpened(t: Table) {
    RowsBelow(t, t.servers) && t.servers <= MAX_SERVERS
  }

  lemma {:induction false} RowsStayOpened(lib: Library, t: Table, trace: seq<Record>)
    requires GoodTable(t) && Current(t) && Ordered(trace) && AllInStep(t, trace) && RowsOpened(t)
    ensures RowsOpened(ConsumeAll(lib, t, trace).table)
    decreases |trace|
  {
    if trace != [] {
      ConsumeWritesItsOwnRow(lib, t, trace[0], true);
      OrderedTail(trace);
      var a := Consume(lib, t, trace[0], true);
      if !a.stop {
        RowsStayOpened(lib, a.table, trace[1..]);
      }
    }
  }

  /** The identifiers of the table's rows. */
  function ShownIds(t: Table): set<nat>
    requires GoodTable(t) && RowsOpened(t)
  {
    RowIds(t.games, t.rows) - {0}
  }

  lemma ShownAreInTheTable(t: Table)
    requires GoodTable(t) && RowsOpened(t)
    ensures ShownIds(t) <= TableIds(t)
  {
    var games := t.games[..t.servers];
    forall id | id in ShownIds(t) ensures id in IdsOf(games) {
      var i :| 0 <= i < |t.rows| && t.games[t.rows[i]].info.uniqueIdentifier == id;
      assert games[t.rows[i]].info.uniqueIdentifier == id;
    }
  }

  lemma DuringTheScan(lib: Library, t: Table, trace: seq<Record>)
    requires GoodTable(t) && Ordered(trace)
    ensures var b := Begin(t);
      var c := ConsumeAll(lib, b, trace).table;
      && t.notes <= c.notes && c.prev == b.prev && c.prevCount == b.prevCount && RowsOpened(c)
      && Listen(TableIds(t), c.notes[|t.notes|..]) == TableIds(t) + ShownIds(c)
  {
    var b := Begin(t);
    assert b.notes[|t.notes|..] == [];
    ConsumeAllAnnounces(lib, b, trace, |t.notes|);
    ConsumeAllKeepsPrev(lib, b, trace);
    NotesGrow(lib, b, trace);
    RowsStayOpened(lib, b, trace);
  }

  lemma AtTheEnd(c: Table, n: nat, ids: set<nat>)
    requires GoodTable(c) && n <= |c.notes|
    ensures Listen(ids, Finish(c).notes[n..]) ==
      Listen(ids, c.notes[n..]) - (IdsOf(c.prev[..c.prevCount]) - TableIds(c))
  {
    var prev := c.prev[..c.prevCount];
    var end := EndNotes(c.games, c.servers, prev);
    assert Finish(c).notes[n..] == c.notes[n..] + end;
    ListenConcat(ids, c.notes[n..], end);
    ListenEnd(Listen(ids, c.notes[n..]), c.games, c.servers, prev);
  }

  /** Every game of the table was in the table before, or is shown under a nonzero identifier. */
  predicate NothingUnseen(lib: Library, t: Table, trace: seq<Record>)
    requires GoodTable(t) && Ordered(trace)
  {
    DuringTheScan(lib, t, trace);
    var c := ConsumeAll(lib, Begin(t), trace).table;
    TableIds(c) <= TableIds(t) + ShownIds(c)
  }

  /** One scan, however it ends: a listener that holds the table's games before it holds the table's games after it, if
      and only if every game that is new has a row and an identifier. */
  lemma ScanReplays(lib: Library, t: Table, trace: seq<Record>)
    requires GoodTable(t) && Ordered(trace)
    ensures var r := RunScan(lib, t, trace);
      && t.notes <= r.notes
      && (Listen(TableIds(t), r.notes[|t.notes|..]) == TableIds(r) <==> NothingUnseen(lib, t, trace))
  {
    DuringTheScan(lib, t, trace);
    var c := ConsumeAll(lib, Begin(t), trace).table;
    ShownAreInTheTable(c);
    AtTheEnd(c, |t.notes|, TableIds(t));
  }

  /** In particular if every server of the table was closed by its LAST, and every game has an identifier. */
  lemma ClosedIsSeen(lib: Library, t: Table, trace: seq<Record>)
    requires GoodTable(t) && Ordered(trace) && Closed(ConsumeAll(lib, Begin(t), trace).table)
    ensures NothingUnseen(lib, t, trace)
  {
    DuringTheScan(lib, t, trace);
    ClosedRowIds(ConsumeAll(lib, Begin(t), trace).table);
  }

  lemma {:induction false} NotesGrow(lib: Library, t: Table, trace: seq<Record>)
    requires GoodTable(t)
    ensures t.notes <= ConsumeAll(lib, t, trace).table.notes
    decreases |trace|
  {
    if trace != [] {
      var a := Consume(lib, t, trace[0], true);
      if !a.stop {
        NotesGrow(lib, a.table, trace[1..]);
      }
    }
  }

  function RunScans(lib: Library, t: Table, traces: seq<seq<Record>>): (r: Table)
    requires GoodTable(t)
    ensures GoodTable(r)
    decreases |traces|
  {
    if traces == [] then t else RunScans(lib, RunScan(lib, t, traces[0]), traces[1..])
  }

  /** Each scan reports in order and leaves no new game without a row and an identifier. */
  predicate AllSeen(lib: Library, t: Table, traces: seq<seq<Record>>)
    requires GoodTable(t)
    decreases |traces|
  {
    traces != [] ==>
      && Ordered(traces[0]) && NothingUnseen(lib, t, traces[0])
      && AllSeen(lib, RunScan(lib, t, traces[0]), traces[1..])
  }

  lemma SplitSince(a: seq<Note>, b: seq<Note>, c: seq<Note>)
    requires a <= b <= c
    ensures a <= c && c[|a|..] == b[|a|..] + c[|b|..]
  {
  }

  /** Any number of scans: the listener always holds exactly the table's identifiers. */
  lemma {:induction false} ListenerHoldsTheTable(lib: Library, t: Table, traces: seq<seq<Record>>)
    requires GoodTable(t) && AllSeen(lib, t, traces)
    ensures var r := RunScans(lib, t, traces);
      t.notes <= r.notes && Listen(TableIds(t), r.notes[|t.notes|..]) == TableIds(r)
    decreases |traces|
  {
    if traces == [] {
      assert t.notes[|t.notes|..] == [];
    } else {
      var next := RunScan(lib, t, traces[0]);
      ScanReplays(lib, t, traces[0]);
      ListenerHoldsTheTable(lib, next, traces[1..]);
      var r := RunScans(lib, t, traces);
      var n := |t.notes|;
      SplitSince(t.notes, next.notes, r.notes);
      ListenConcat(TableIds(t), next.notes[n..], r.notes[|next.notes|..]);
    }
  }
}
