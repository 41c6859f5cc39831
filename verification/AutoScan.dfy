/** What the window's messages are for: scans that begin, go on by themselves, wait for the dialog, and stop for
    good. */
module AutoScan {
  import opened Common
  import P = ParserSpec
  import opened SessionTable
  import opened Notifications
  import opened Lifecycle

  // ---------------------------------------------------------------- one message

  /** `next` has begun one scan of the stream, in a thread of its own, and forgotten rows and selections. */
  predicate HasBegun(w: Window, next: Window, stream: Stream) {
    && next.threads == w.threads + [Starting(TraceOf(stream))] && next.hScan == Some(|w.threads|) && next.go
    && !next.timer && next.table == w.table.(rows := []) && next.selectedGame == None && next.selectedPlayer == None
    && next.autoScan == w.autoScan && next.quitting == w.quitting && next.closed == w.closed
    && next.dialog == w.dialog && next.deferred == w.deferred
  }

  /** A timer message, and the Refresh button: a scan begins if there is none, one that runs is asked to stop, and while
      the dialog is open neither happens; then the timer message waits for the dialog to close. */
  lemma TimerAndButton(lib: Library, w: Window, stream: Stream)
    ensures var byTimer, byButton := Next(lib, w, ToWindow(Timer(stream))), Next(lib, w, ToWindow(Refresh(stream)));
      && (w.dialog.NoDialog? && w.hScan == None ==> HasBegun(w, byTimer, stream) && HasBegun(w, byButton, stream))
      && (w.dialog.NoDialog? && w.hScan.Some? ==> byTimer == w.(go := false) && byButton == w.(go := false))
      && (w.dialog.Renaming? ==> byTimer == w.(deferred := true, timer := false) && byButton == w)
  {
  }

  /** Switching automatic scanning off stops the timer, switching it on sets it, and neither does anything else. A new
      delay sets it again. */
  lemma TogglesAndDelay(lib: Library, w: Window)
    ensures var toggled, delayed := Next(lib, w, ToWindow(ToggleAutoScan)), Next(lib, w, ToWindow(ApplyDelay));
      && (w.autoScan ==> toggled == w.(autoScan := false, timer := false))
      && (!w.autoScan ==> toggled == w.(autoScan := true, timer := true))
      && (w.autoScan ==> delayed == w.(timer := true)) && (!w.autoScan ==> delayed == w)
  {
  }

  /** At the start: with automatic scanning a scan has begun, without it there is nothing to wait for. */
  lemma AtTheStart(stream: Stream)
    ensures var on, off := Initially(true, stream), Initially(false, stream);
      && on.threads == [Starting(TraceOf(stream))] && on.hScan == Some(0) && on.go && on.autoScan
      && off.threads == [] && off.hScan == None && !off.timer && !off.autoScan
      && on.table == off.table && off.table.games == off.table.prev && off.table.rows == [] && off.table.notes == []
      && on.dialog == off.dialog == NoDialog
  {
    assert [] + [Starting(TraceOf(stream))] == [Starting(TraceOf(stream))];
  }

  // ---------------------------------------------------------------- a whole scan

  function Callbacks(i: nat, n: nat): seq<Event> {
    if n == 0 then [] else [ByThread(i, Callback)] + Callbacks(i, n - 1)
  }

  /** A timer message, and then all the steps of the thread it creates, whose number is `i`. */
  function ScanEvents(i: nat, stream: Stream): seq<Event> {
    [ToWindow(Timer(stream)), ByThread(i, Start)] + Callbacks(i, |TraceOf(stream)|)
    + [ByThread(i, LastCallback), ByThread(i, End)]
  }

  lemma AfterTwo(lib: Library, w: Window, e1: Event, e2: Event)
    ensures After(lib, w, [e1, e2]) == Next(lib, Next(lib, w, e1), e2)
  {
    assert [e1, e2][1..] == [e2] && [e2][1..] == [];
    var w1 := Next(lib, w, e1);
    assert After(lib, w1, [e2]) == After(lib, Next(lib, w1, e2), []);
  }

  /** Thread `i` is the one that scans, and nobody has asked it to stop. */
  predicate Scanning(w: Window, i: nat, trace: seq<P.Record>, k: nat, stopped: bool) {
    && i < |w.threads| && w.threads[i] == Feeding(trace, k, stopped) && k <= |trace| && w.go && GoodTable(w.table)
  }

  /** A callback that has been answered with a stop is the last one. */
  lemma {:induction false} StoppedFeeds(lib: Library, w: Window, i: nat, n: nat)
    requires i < |w.threads| && w.threads[i].Feeding? && w.threads[i].stopped
    ensures After(lib, w, Callbacks(i, n)) == w
  {
    if n > 0 {
      var rest := Callbacks(i, n - 1);
      assert Callbacks(i, n)[1..] == rest;
      assert Next(lib, w, ByThread(i, Callback)) == w;
      StoppedFeeds(lib, w, i, n - 1);
    }
  }

  lemma OneCallback(lib: Library, w: Window, i: nat, trace: seq<P.Record>, k: nat)
    requires Scanning(w, i, trace, k, false) && k < |trace|
    ensures var a := Consume(lib, w.table, trace[k], true);
      Next(lib, w, ByThread(i, Callback)) ==
        w.(table := a.table, threads := w.threads[i := Feeding(trace, k + 1, a.stop)])
  {
  }

  /** Thread `i` has fed the table, and nothing else has changed. */
  predicate HasFed(w: Window, next: Window, i: nat, table: Table) {
    && i < |w.threads| && i < |next.threads| && next.threads[i].Feeding?
    && next == w.(table := table, threads := w.threads[i := next.threads[i]])
  }

  lemma FedOnce(w: Window, i: nat, t: Thread, table: Table, next: Window, last: Table)
    requires i < |w.threads| && HasFed(w.(table := table, threads := w.threads[i := t]), next, i, last)
    ensures HasFed(w, next, i, last)
  {
    assert w.threads[i := t][i := next.threads[i]] == w.threads[i := next.threads[i]];
  }

  /** The callbacks store what the consumer makes of the rest of the trace. */
  lemma {:induction false} CallbacksFeed(lib: Library, w: Window, i: nat, trace: seq<P.Record>, k: nat)
    requires Scanning(w, i, trace, k, false)
    ensures HasFed(w, After(lib, w, Callbacks(i, |trace| - k)), i, ConsumeAll(lib, w.table, trace[k..]).table)
    decreases |trace| - k
  {
    if k < |trace| {
      var rest := Callbacks(i, |trace| - k - 1);
      assert Callbacks(i, |trace| - k)[1..] == rest && trace[k..][1..] == trace[k + 1..];
      var a := Consume(lib, w.table, trace[k], true);
      var next := Next(lib, w, ByThread(i, Callback));
      OneCallback(lib, w, i, trace, k);
      if a.stop {
        StoppedFeeds(lib, next, i, |trace| - k - 1);
      } else {
        CallbacksFeed(lib, next, i, trace, k + 1);
        FedOnce(w, i, Feeding(trace, k + 1, false), a.table, After(lib, next, rest),
                ConsumeAll(lib, a.table, trace[k + 1..]).table);
      }
    } else {
      assert w.threads[i := w.threads[i]] == w.threads;
    }
  }

  /** Nothing goes on, and the timer may fire. */
  predicate AtRest(w: Window) {
    GoodTable(w.table) && w.dialog.NoDialog? && w.hScan == None && !w.quitting && !w.closed
  }

  /** The scan of the stream is over: the table is the one that the whole scan makes, and the window is at rest. */
  predicate HasScanned(lib: Library, w: Window, next: Window, stream: Stream)
    requires GoodTable(w.table)
  {
    && next.table == RunScan(lib, w.table, TraceOf(stream)) && next.threads == w.threads + [Gone] && AtRest(next)
    && next.timer == w.autoScan == next.autoScan
  }

  lemma ScanBegins(lib: Library, w: Window, stream: Stream)
    requires AtRest(w)
    ensures var i, trace := |w.threads|, TraceOf(stream);
      var next := After(lib, w, [ToWindow(Timer(stream)), ByThread(i, Start)]);
      && next.table == Begin(w.table) && next.threads == w.threads + [Feeding(trace, 0, false)] && next.go
      && next.dialog.NoDialog? && !next.timer && !next.quitting && !next.closed && next.autoScan == w.autoScan
  {
    var i, trace := |w.threads|, TraceOf(stream);
    TimerAndButton(lib, w, stream);
    var begun := Next(lib, w, ToWindow(Timer(stream)));
    AfterTwo(lib, w, ToWindow(Timer(stream)), ByThread(i, Start));
    assert begun.threads[i := Feeding(trace, 0, false)] == w.threads + [Feeding(trace, 0, false)];
  }

  lemma ScanEnds(lib: Library, w: Window, before: seq<Thread>)
    requires GoodTable(w.table) && |w.threads| == |before| + 1 && w.threads[..|before|] == before
    requires w.threads[|before|].Feeding? && w.dialog.NoDialog? && !w.timer && !w.quitting && !w.closed
    ensures var i := |before|;
      var next := After(lib, w, [ByThread(i, LastCallback), ByThread(i, End)]);
      && next.table == Finish(w.table) && next.threads == before + [Gone] && AtRest(next)
      && next.timer == w.autoScan == next.autoScan
  {
    var i := |before|;
    AfterTwo(lib, w, ByThread(i, LastCallback), ByThread(i, End));
    assert w.threads[i := Ending][i := Gone] == before + [Gone];
  }

  /** Left alone, a timer message scans the stream to its end, whatever the consumer answers, and leaves the timer set
      if automatic scanning is on. */
  lemma TimerScans(lib: Library, w: Window, stream: Stream)
    requires AtRest(w)
    ensures HasScanned(lib, w, After(lib, w, ScanEvents(|w.threads|, stream)), stream)
  {
    var i, trace := |w.threads|, TraceOf(stream);
    var first, last := [ToWindow(Timer(stream)), ByThread(i, Start)], [ByThread(i, LastCallback), ByThread(i, End)];
    var w1 := After(lib, w, first);
    ScanBegins(lib, w, stream);
    CallbacksFeed(lib, w1, i, trace, 0);
    assert trace[0..] == trace;
    var w2 := After(lib, w1, Callbacks(i, |trace|));
    assert w2.threads[..i] == w.threads;
    ScanEnds(lib, w2, w.threads);
    AfterConcat(lib, w, first, Callbacks(i, |trace|));
    AfterConcat(lib, w, first + Callbacks(i, |trace|), last);
  }

  // ---------------------------------------------------------------- one scan after another

  function TracesOf(streams: seq<Stream>): seq<seq<P.Record>> {
    if streams == [] then [] else [TraceOf(streams[0])] + TracesOf(streams[1..])
  }

  /** The timer fires for every stream, and each time the thread runs to its end. */
  function AllScans(i: nat, streams: seq<Stream>): seq<Event>
    decreases |streams|
  {
    if streams == [] then [] else ScanEvents(i, streams[0]) + AllScans(i + 1, streams[1..])
  }

  /** All the streams have been scanned, one after the other, and the timer is set for the next. */
  predicate HasGoneOn(lib: Library, w: Window, next: Window, streams: seq<Stream>)
    requires GoodTable(w.table)
  {
    && next.table == RunScans(lib, w.table, TracesOf(streams)) && |next.threads| == |w.threads| + |streams|
    && AtRest(next) && next.autoScan && next.timer
  }

  lemma OneMoreScan(lib: Library, w: Window, next: Window, last: Window, streams: seq<Stream>)
    requires GoodTable(w.table) && streams != [] && HasScanned(lib, w, next, streams[0])
    requires HasGoneOn(lib, next, last, streams[1..])
    ensures HasGoneOn(lib, w, last, streams)
  {
    assert TracesOf(streams)[1..] == TracesOf(streams[1..]);
  }

  /** Automatic scanning goes on: each scan leaves the timer set for the next, and in the end the table is the one that
      all the scans make of the streams. */
  lemma {:induction false} ScanningGoesOn(lib: Library, w: Window, streams: seq<Stream>)
    requires AtRest(w) && w.autoScan && w.timer
    ensures HasGoneOn(lib, w, After(lib, w, AllScans(|w.threads|, streams)), streams)
    decreases |streams|
  {
    if streams != [] {
      var scan, rest := ScanEvents(|w.threads|, streams[0]), AllScans(|w.threads| + 1, streams[1..]);
      TimerScans(lib, w, streams[0]);
      var next := After(lib, w, scan);
      ScanningGoesOn(lib, next, streams[1..]);
      AfterConcat(lib, w, scan, rest);
      OneMoreScan(lib, w, next, After(lib, next, rest), streams);
    }
  }

  /** Every reachable window with automatic scanning on, no thread at work, no dialog and nobody quitting is one from
      which this goes on. */
  lemma ReachableScansGoOn(lib: Library, stream: Stream, autoScan: bool, events: seq<Event>, streams: seq<Stream>)
    requires var w := After(lib, Initially(autoScan, stream), events);
      w.autoScan && Idle(w) && w.dialog.NoDialog? && !w.quitting && !w.closed
    ensures var w := After(lib, Initially(autoScan, stream), events);
      GoodTable(w.table) && HasGoneOn(lib, w, After(lib, w, AllScans(|w.threads|, streams)), streams)
  {
    InitiallyInv(autoScan, stream);
    AlwaysInv(lib, Initially(autoScan, stream), events);
    ScanningGoesOn(lib, After(lib, Initially(autoScan, stream), events), streams);
  }

  /** So a listener that hears only what these scans announce always holds the games of the window's table, as long as
      no scan leaves a new game without a row and an identifier. */
  lemma ListenerFollowsTheWindow(lib: Library, w: Window, streams: seq<Stream>)
    requires AtRest(w) && w.autoScan && w.timer && AllSeen(lib, w.table, TracesOf(streams))
    ensures var next := After(lib, w, AllScans(|w.threads|, streams));
      && GoodTable(next.table) && w.table.notes <= next.table.notes
      && Listen(TableIds(w.table), next.table.notes[|w.table.notes|..]) == TableIds(next.table)
  {
    ScanningGoesOn(lib, w, streams);
    ListenerHoldsTheTable(lib, w.table, TracesOf(streams));
  }

  // ---------------------------------------------------------------- the dialog

  /** A timer message that came while the dialog was open: closing the dialog sets the timer again, and the next message
      scans. */
  lemma DeferredScanBegins(lib: Library, w: Window, early: Stream, nick: Option<string>, stream: Stream)
    requires w.dialog.Renaming? && w.autoScan && w.hScan == None
    ensures var closed := After(lib, w, [ToWindow(Timer(early)), ToWindow(CloseRename(nick))]);
      && closed.timer && !closed.deferred && closed.threads == w.threads
      && HasBegun(closed, Next(lib, closed, ToWindow(Timer(stream))), stream)
  {
    TimerAndButton(lib, w, early);
    AfterTwo(lib, w, ToWindow(Timer(early)), ToWindow(CloseRename(nick)));
    var closed := After(lib, w, [ToWindow(Timer(early)), ToWindow(CloseRename(nick))]);
    TimerAndButton(lib, closed, stream);
  }

  /** With automatic scanning switched off in between, it does not set the timer. */
  lemma NothingDeferredWhenOff(lib: Library, w: Window, early: Stream, nick: Option<string>)
    requires w.dialog.Renaming? && !w.autoScan
    ensures var closed := After(lib, w, [ToWindow(Timer(early)), ToWindow(CloseRename(nick))]);
      !closed.timer && !closed.deferred && closed.dialog.NoDialog?
  {
    TimerAndButton(lib, w, early);
    AfterTwo(lib, w, ToWindow(Timer(early)), ToWindow(CloseRename(nick)));
  }

  /** The dialog opens for the selected player of the selected game, and a submitted nickname is written there and
      nowhere else. */
  lemma RenameWritesOneName(lib: Library, w: Window, nick: string)
    requires GoodTable(w.table) && w.dialog.NoDialog? && w.selectedGame.Some? && w.selectedPlayer.Some?
    requires w.selectedGame.value < MAX_SERVERS && w.selectedPlayer.value < MAX_PLAYERS
    ensures var next := After(lib, w, [ToWindow(OpenRename), ToWindow(CloseRename(Some(nick)))]);
      next.dialog.NoDialog?
      && OnlyThatName(w.table, next.table, w.selectedGame.value, w.selectedPlayer.value, nick)
  {
    AfterTwo(lib, w, ToWindow(OpenRename), ToWindow(CloseRename(Some(nick))));
    var g, p := w.selectedGame.value, w.selectedPlayer.value;
    var opened_ := Next(lib, w, ToWindow(OpenRename));
    assert opened_ == w.(dialog := Renaming(g, p, w.table.games[g].playerinfo[p]));
    OneNameWritten(w.table, g, p, nick);
  }

  /** The tables differ in one nickname. */
  predicate OnlyThatName(t: Table, next: Table, g: nat, p: nat, nick: string) {
    && next == t.(games := next.games) && |next.games| == |t.games| && Slot(t, g, p) && Slot(next, g, p)
    && next.games[g] == t.games[g].(playerinfo := next.games[g].playerinfo)
    && |next.games[g].playerinfo| == |t.games[g].playerinfo|
    && next.games[g].playerinfo[p] == t.games[g].playerinfo[p].(localName := nick)
    && (forall i :: 0 <= i < |t.games[g].playerinfo| && i != p ==>
      next.games[g].playerinfo[i] == t.games[g].playerinfo[i])
    && (forall i :: 0 <= i < |t.games| && i != g ==> next.games[i] == t.games[i])
  }

  lemma OneNameWritten(t: Table, g: nat, p: nat, nick: string)
    requires Slot(t, g, p)
    ensures OnlyThatName(t, WithLocalName(t, g, p, nick), g, p, nick)
  {
  }

  /** Choosing a game that has a row selects it, and another game than before has no selected player yet; choosing a
      list item selects that player of the selected game. */
  lemma Selections(lib: Library, w: Window, game: nat, item: nat)
    ensures Next(lib, w, ToWindow(SelectGame(game))) ==
      if game !in w.table.rows || w.selectedGame == Some(game) then w
      else w.(selectedGame := Some(game), selectedPlayer := None)
    ensures Next(lib, w, ToWindow(SelectPlayer(item))) ==
      if w.selectedGame == None then w else w.(selectedPlayer := if item < 16 then Some(item) else None)
    ensures Next(lib, w, ToWindow(DeselectPlayer)) == w.(selectedPlayer := None)
  {
  }

  lemma ChoiceIsMade(lib: Library, w: Window, game: nat, item: nat)
    requires game in w.table.rows && item < 16
    ensures After(lib, w, [ToWindow(SelectGame(game)), ToWindow(SelectPlayer(item))]) ==
      w.(selectedGame := Some(game), selectedPlayer := Some(item))
  {
    AfterTwo(lib, w, ToWindow(SelectGame(game)), ToWindow(SelectPlayer(item)));
    Selections(lib, w, game, item);
    Selections(lib, Next(lib, w, ToWindow(SelectGame(game))), game, item);
  }

  /** From the choice of a game and a player to the submitted nickname: it is written for that player of that game, and
      nothing else in the table changes. */
  lemma ChosenPlayerIsRenamed(lib: Library, w: Window, game: nat, item: nat, nick: string)
    requires GoodTable(w.table) && w.dialog.NoDialog? && game in w.table.rows && game < MAX_SERVERS && item < 16
    ensures var chosen := After(lib, w, [ToWindow(SelectGame(game)), ToWindow(SelectPlayer(item))]);
      var next := After(lib, chosen, [ToWindow(OpenRename), ToWindow(CloseRename(Some(nick)))]);
      OnlyThatName(w.table, next.table, game, item, nick)
  {
    ChoiceIsMade(lib, w, game, item);
    RenameWritesOneName(lib, w.(selectedGame := Some(game), selectedPlayer := Some(item)), nick);
  }

  /** The nicknames of a game's players are filled in from the first slot on. */
  lemma {:induction false} NamesAreFilledIn(t: Table, g: nat, first: nat, names: seq<string>, p: nat)
    requires Slot(t, g, p)
    ensures var next := WithLocalNames(t, g, first, names);
      && Slot(next, g, p)
      && next.games[g].playerinfo[p].localName ==
        (if first <= p < first + |names| then names[p - first] else t.games[g].playerinfo[p].localName)
    decreases |names|
  {
    if names != [] && Slot(t, g, first) {
      NamesAreFilledIn(WithLocalName(t, g, first, names[0]), g, first + 1, names[1..], p);
    }
  }

  lemma ShownNamesAreTheOnesGiven(lib: Library, w: Window, names: seq<string>, g: nat, p: nat)
    requires w.selectedGame == Some(g) && Slot(w.table, g, p)
    ensures var next := Next(lib, w, ToWindow(ShowNames(names)));
      && OnlyNicknames(w.table, next.table) && next == w.(table := next.table)
      && next.table.games[g].playerinfo[p].localName ==
        if p < |names| then names[p] else w.table.games[g].playerinfo[p].localName
  {
    NamesAreFilledIn(w.table, g, 0, names, p);
    NamesAreOnlyNicknames(w.table, g, 0, names);
  }

  // ---------------------------------------------------------------- quitting

  /** The first close during a scan only asks it to stop. When the thread has made its terminal callback and ended, the
      window is closed, and no timer is set. A second close does not wait. */
  lemma CloseWaitsForTheScan(lib: Library, w: Window, i: nat)
    requires GoodTable(w.table) && w.hScan == Some(i) && !w.quitting && !w.closed
    requires i < |w.threads| && w.threads[i].Feeding?
    ensures var closing := Next(lib, w, ToWindow(Close));
      && closing == w.(quitting := true, go := false) && Next(lib, closing, ToWindow(Close)) == closing.(closed := true)
      && var ended := After(lib, closing, [ByThread(i, LastCallback), ByThread(i, End)]);
        && ended.closed && ended.quitting && ended.hScan == None && ended.timer == w.timer
        && ended.threads == w.threads[i := Gone] && ended.table == Finish(w.table)
  {
    var closing := Next(lib, w, ToWindow(Close));
    AfterTwo(lib, closing, ByThread(i, LastCallback), ByThread(i, End));
    assert w.threads[i := Ending][i := Gone] == w.threads[i := Gone];
  }

  lemma CloseAtOnce(lib: Library, w: Window)
    requires w.hScan == None
    ensures Next(lib, w, ToWindow(Close)) == w.(closed := true)
  {
  }

  /** Nothing else closes the window: neither other messages nor threads, unless it has been asked to quit. */
  lemma NothingElseCloses(lib: Library, w: Window, e: Event)
    requires !w.closed && Next(lib, w, e).closed
    ensures e == ToWindow(Close) || (e.ByThread? && e.move.End? && w.quitting)
  {
    match e
    case ToWindow(m) =>
      if !m.Close? {
        MessagesDoNotClose(w, m);
      }
    case ByThread(i, move) =>
      if !move.End? || !w.quitting {
        MovesDoNotClose(lib, w, i, move);
      }
  }

  lemma MessagesDoNotClose(w: Window, m: Message)
    requires !m.Close?
    ensures OnMessage(w, m).closed == w.closed
  {
    match m
    case CloseRename(nick) => assert OnMessage(w, m) == OnCloseRename(w, nick);
    case Timer(stream) => assert OnMessage(w, m) == OnTimer(w, stream);
    case _ =>
  }

  lemma MovesDoNotClose(lib: Library, w: Window, i: nat, move: Move)
    requires !move.End? || !w.quitting
    ensures OnMove(lib, w, i, move).closed == w.closed
  {
  }
}
