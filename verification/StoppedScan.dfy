/** How a scan ends that has been asked to stop: the terminal callback compares a table that is only partly filled. */
module StoppedScan {
  import opened Common
  import opened ParserSpec
  import opened Document
  import opened SessionTable
  import opened SessionScan
  import opened Notifications
  import opened PlayerListener
  import opened DirectReading
  import opened LobbyScan
  import opened Lifecycle
  import A = Acceptance
  import CheckValues
  import HttpFraming
  import Identity
  import LiteralKeys
  import RoundTrip

  lemma LastCallbackAnnounces(w: Window, i: nat)
    requires GoodTable(w.table) && i < |w.threads| && w.threads[i].Feeding?
    ensures var t, next := w.table, OnLastCallback(w, i);
      && next.hScan == None
      && next.table == t.(notes := t.notes + EndNotes(t.games, t.servers, t.prev[..t.prevCount]))
      && (next.table.notes == t.notes <==>
        forall g :: 0 <= g < t.prevCount ==> IsUnchanged(t.games, t.servers, t.prev[g]))
  {
    var t := w.table;
    var prev := t.prev[..t.prevCount];
    var added := EndNotes(t.games, t.servers, prev);
    NothingIsAnnouncedIff(t.games, t.servers, prev);
    assert forall g :: 0 <= g < t.prevCount ==> prev[g] == t.prev[g];
    assert |t.notes + added| == |t.notes| + |added|;
    assert t.notes + [] == t.notes;
  }

  /** A scan that has been asked to stop, whatever happens until its terminal callback: nothing has been stored or
      announced since, and that callback stores nothing, but it announces the whole comparison of the previous games
      with what had been stored at the request. So it announces nothing if and only if all previous games had been
      stored by then, with the same players. */
  lemma StopEnds(lib: Library, w: Window, i: nat, events: seq<Event>)
    requires Inv(w) && w.hScan == Some(i) && !w.go
    requires var w' := After(lib, w, events); w'.hScan == Some(i) && i < |w'.threads| && w'.threads[i].Feeding?
    ensures var w' := After(lib, w, events);
      var t, next := w'.table, Lifecycle.Next(lib, w', ByThread(i, LastCallback));
      && next.hScan == None && GoodTable(t) && NothingStored(w.table, t)
      && (w.threads[i].Feeding? ==> OnlyNicknames(w.table, t))
      && next.table == t.(notes := w.table.notes + EndNotes(t.games, t.servers, t.prev[..t.prevCount]))
      && (next.table.notes == w.table.notes <==>
        forall g :: 0 <= g < t.prevCount ==> IsUnchanged(t.games, t.servers, t.prev[g]))
  {
    StopIsFinal(lib, w, i, events);
    AlwaysInv(lib, w, events);
    LastCallbackAnnounces(After(lib, w, events), i);
  }

  // ---------------------------------------------------------------- nothing stored

  function QuitsOf(prev: seq<GameInfo>): seq<Note> {
    if prev == [] then [] else [GameQuit(prev[0].info.uniqueIdentifier)] + QuitsOf(prev[1..])
  }

  /** With no server stored, every previous game is announced as gone. */
  lemma {:induction false} NoServersQuitAll(games: seq<GameInfo>, prev: seq<GameInfo>)
    ensures EndNotes(games, 0, prev) == QuitsOf(prev)
    decreases |prev|
  {
    if prev != [] {
      NoServersQuitAll(games, prev[1..]);
    }
  }

  // ---------------------------------------------------------------- a game that is still there

  function BeginEvents(stream: Stream): seq<Event> {
    [ToWindow(Refresh(stream)), ByThread(0, Start), ByThread(0, Callback)]
  }

  function EndEvents(): seq<Event> {
    [ByThread(0, LastCallback), ByThread(0, End)]
  }

  function StopEvents(stream: Stream): seq<Event> {
    [ToWindow(Refresh(stream)), ByThread(1, Start), ToWindow(Refresh(stream)), ByThread(1, LastCallback)]
  }

  /** A scan of one server; the same scan again, stopped before its first callback. */
  function ScanAndStop(stream: Stream): seq<Event> {
    BeginEvents(stream) + (EndEvents() + StopEvents(stream))
  }

  lemma AfterOne(lib: Library, w: Window, e: Event, events: seq<Event>)
    ensures After(lib, w, [e] + events) == After(lib, Lifecycle.Next(lib, w, e), events)
  {
    assert ([e] + events)[1..] == events;
  }

  /** Nothing goes on in the window, whose table holds one game. */
  predicate AtRest(w: Window) {
    && GoodTable(w.table) && w.hScan == None && w.dialog.NoDialog? && |w.threads| == 1 && w.table.servers == 1
  }

  /** The stopped scan: the one game is announced as gone. */
  lemma SecondScan(lib: Library, w: Window, stream: Stream)
    requires AtRest(w)
    ensures After(lib, w, StopEvents(stream)).table.notes ==
      w.table.notes + [GameQuit(w.table.games[0].info.uniqueIdentifier)]
  {
    var refresh, start, last := ToWindow(Refresh(stream)), ByThread(1, Start), ByThread(1, LastCallback);
    var w1 := OnRefresh(w, stream);
    var w2 := OnThreadStarts(w1, 1);
    var w3 := OnRefresh(w2, stream);
    AfterOne(lib, w, refresh, [start, refresh, last]);
    AfterOne(lib, w1, start, [refresh, last]);
    AfterOne(lib, w2, refresh, [last]);
    AfterOne(lib, w3, last, []);
    assert [last] + [] == [last];
    assert w2.table.prev == w.table.games && w2.table.prevCount == 1 && w2.table.servers == 0;
    LastCallbackAnnounces(w3, 1);
    var prev := w3.table.prev[..1];
    NoServersQuitAll(w3.table.games, prev);
    assert prev[1..] == [];
  }

  /** The stream makes one callback, the LAST of a server. */
  predicate OneServerStream(stream: Stream) {
    var trace := TraceOf(stream);
    |trace| == 1 && trace[0].status == Last && !trace[0].isPlayer && trace[0].server == 0 && trace[0].player == 0
  }

  /** The callback itself, on an empty table. */
  lemma OneGameStored(lib: Library, t: Table, r: Record)
    requires GoodTable(t) && t.servers == 0 && t.prevCount == 0 && t.notes == []
    requires r.status == Last && !r.isPlayer && r.server == 0 && r.player == 0
    ensures var a := Consume(lib, t, r, true);
      var id := lib.setServer(NoInfo(), r.key, r.value).uniqueIdentifier;
      && !a.stop && a.table.servers == 1 && a.table.prevCount == 0 && a.table.games[0].info.uniqueIdentifier == id
      && a.table.notes == if id == 0 then [] else [GameNew(id)]
  {
    assert FindGame(t.prev, 0, lib.setServer(NoInfo(), r.key, r.value).uniqueIdentifier) == 0;
  }

  /** The first scan is about to end: one game is stored, shown and announced, if it has an identifier. */
  predicate OneStored(w: Window, id: nat) {
    && GoodTable(w.table) && w.dialog.NoDialog? && !w.quitting && |w.threads| == 1 && w.threads[0].Feeding?
    && w.table.servers == 1 && w.table.prevCount == 0 && w.table.games[0].info.uniqueIdentifier == id
    && w.table.notes == if id == 0 then [] else [GameNew(id)]
  }

  lemma FirstHalf(lib: Library, stream: Stream)
    requires OneServerStream(stream)
    ensures var r := TraceOf(stream)[0];
      OneStored(After(lib, Initially(false, stream), BeginEvents(stream)),
                lib.setServer(NoInfo(), r.key, r.value).uniqueIdentifier)
  {
    var refresh, start, feed := ToWindow(Refresh(stream)), ByThread(0, Start), ByThread(0, Callback);
    var w := Initially(false, stream);
    var w1 := OnRefresh(w, stream);
    var w2 := OnThreadStarts(w1, 0);
    AfterOne(lib, w, refresh, [start, feed]);
    AfterOne(lib, w1, start, [feed]);
    AfterOne(lib, w2, feed, []);
    assert [feed] + [] == [feed];
    OneGameStored(lib, w2.table, TraceOf(stream)[0]);
  }

  lemma SecondHalf(lib: Library, w: Window, id: nat)
    requires OneStored(w, id)
    ensures var w' := After(lib, w, EndEvents());
      AtRest(w') && w'.table.games[0].info.uniqueIdentifier == id && w'.table.notes == w.table.notes
  {
    var w1 := OnLastCallback(w, 0);
    AfterOne(lib, w, ByThread(0, LastCallback), [ByThread(0, End)]);
    AfterOne(lib, w1, ByThread(0, End), []);
    assert [ByThread(0, End)] + [] == [ByThread(0, End)];
    LastCallbackAnnounces(w, 0);
    assert w.table.prev[..0] == [];
  }

  /** Scan a server twice, and press Stop in the second scan: the game is announced as gone, although it is still in the
      same document. */
  lemma StopAnnouncesAGameThatIsThere(lib: Library, stream: Stream)
    requires OneServerStream(stream)
    ensures var r := TraceOf(stream)[0];
      var id := lib.setServer(NoInfo(), r.key, r.value).uniqueIdentifier;
      After(lib, Initially(false, stream), ScanAndStop(stream)).table.notes ==
        (if id == 0 then [] else [GameNew(id)]) + [GameQuit(id)]
  {
    var r := TraceOf(stream)[0];
    var id := lib.setServer(NoInfo(), r.key, r.value).uniqueIdentifier;
    var w := Initially(false, stream);
    var begun := After(lib, w, BeginEvents(stream));
    FirstHalf(lib, stream);
    SecondHalf(lib, begun, id);
    SecondScan(lib, After(lib, begun, EndEvents()), stream);
    AfterConcat(lib, begun, EndEvents(), StopEvents(stream));
    AfterConcat(lib, w, BeginEvents(stream), EndEvents() + StopEvents(stream));
  }

  // ---------------------------------------------------------------- such a document

  const ONE_GAME_SERVER: Members := Member("", "g", "", "", Word("x"), "", NoMember)

  const ONE_GAME: Node :=
    Obj("", Member("", "G", "", "", Arr("", Item("", Obj("", ONE_GAME_SERVER), "", NoItem)), "", NoMember))

  lemma OneGameIsRead()
    ensures Lobby(ONE_GAME) && Printable(ONE_GAME) && WalkDocument(ONE_GAME).ok
    ensures WalkDocument(ONE_GAME).trace == [FirstRecord(ONE_GAME_SERVER, 3, Slots(0, 0))]
  {
    var items := ONE_GAME.members.val.items;
    assert A.MembersFit(ONE_GAME_SERVER) && A.DepthOfItems(items) == 1 && A.Depth(ONE_GAME) == 3;
    A.WalkOfDocument(ONE_GAME);
    LobbyTrace(ONE_GAME);
    assert ServersTrace(items.rest, 1) == [] && ServerTrace(ONE_GAME_SERVER.rest, Slots(0, 0)) == [];
  }

  /** A file with one server, which has an identifier. */
  lemma OneGameStream()
    ensures var stream := Stream(false, Print(ONE_GAME));
      OneServerStream(stream) && TraceOf(stream)[0].key == "g" && TraceOf(stream)[0].value == "x"
  {
    OneGameIsRead();
    HttpFraming.BodyWithoutLength(Initial(false), Print(ONE_GAME));
    assert "" + Print(ONE_GAME) + "" == Print(ONE_GAME);
    RoundTrip.DocumentRoundTrip(ONE_GAME, "", "");
    ShortIsWhole("g", KEY_LEN);
    ShortIsWhole("x", VALUE_LEN);
  }

  lemma QuitWhileStillThere(d: Decoders)
    requires d.serverKey("g") == SERVERKEY_G && d.identify("x") != 0
    ensures var stream := Stream(false, Print(ONE_GAME));
      After(Standard(d), Initially(false, stream), ScanAndStop(stream)).table.notes ==
        [GameNew(d.identify("x")), GameQuit(d.identify("x"))]
  {
    OneGameStream();
    StopAnnouncesAGameThatIsThere(Standard(d), Stream(false, Print(ONE_GAME)));
  }

  /** And it is so for the scanner itself. */
  lemma TheScannerQuitsIt(decode: string -> string)
    ensures var stream, id := Stream(false, Print(ONE_GAME)), Identity.Identify("x");
      After(Standard(Scanner(decode)), Initially(false, stream), ScanAndStop(stream)).table.notes ==
        [GameNew(id), GameQuit(id)]
  {
    LiteralKeys.NumbersOfTexts("g");
    CheckValues.IdentityOfX();
    QuitWhileStillThere(Scanner(decode));
  }
}
