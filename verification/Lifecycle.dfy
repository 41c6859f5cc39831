/** When scans begin and end (bzccscanner.c): the window's messages and the scan threads as one state machine, whose
    steps may come in any order. */
module Lifecycle {
  import opened Common
  import opened ParserSpec
  import opened ParserRuns
  import opened SessionTable
  import opened FrozenRows
  import opened Notifications

  /** A scan thread. `trace` is what its stream makes the parser report if nobody stops it, and `k` of these callbacks
      have been made. After the last callback it has released `hScan`, but `EndScan` is not over. */
  datatype Thread =
    | Starting(trace: seq<Record>)
    | Feeding(trace: seq<Record>, k: nat, stopped: bool)
    | Ending
    | Gone

  /** The rename dialog; `was` is what the player held when it opened. */
  datatype Dialog = NoDialog | Renaming(game: nat, player: nat, was: PlayerInfo)

  /** `hScan` is the thread that the handle stands for, `go` is `iContinueScan`, `timer` whether `IDT_REFRESH` is set,
      and `deferred` is `auto_scan_request_while_busy`. `threads` holds every thread ever created. */
  datatype Window = Window(table: Table, threads: seq<Thread>, hScan: Option<nat>, go: bool, quitting: bool,
                           closed: bool, autoScan: bool, timer: bool, deferred: bool, selectedGame: Option<nat>,
                           selectedPlayer: Option<nat>, dialog: Dialog)

  /** A stream that a new scan would read. */
  datatype Stream = Stream(http: bool, bytes: string)

  function TraceOf(s: Stream): seq<Record> {
    RunAll(Initial(s.http), s.bytes).trace
  }

  /** A message to the window. A timer message may still be queued when its timer is gone. */
  datatype Message =
    | Refresh(stream: Stream)
    | Timer(stream: Stream)
    | ToggleAutoScan
    | ApplyDelay
    | SelectGame(game: nat)
    | SelectPlayer(listItem: nat)
    | DeselectPlayer
    | ShowNames(names: seq<string>)
    | OpenRename
    | CloseRename(nick: Option<string>)
    | Close

  /** What thread `i` does next. */
  datatype Move = Start | Callback | LastCallback | End

  datatype Event = ToWindow(message: Message) | ByThread(i: nat, move: Move)

  // ---------------------------------------------------------------- the window's messages

  /** `BeginScan`, with the thread created. */
  function BeginScan(w: Window, trace: seq<Record>): Window {
    w.(timer := false, go := true, selectedGame := None, selectedPlayer := None, table := w.table.(rows := []),
       threads := w.threads + [Starting(trace)], hScan := Some(|w.threads|))
  }

  function OnRefresh(w: Window, stream: Stream): Window {
    if w.dialog.Renaming? then w
    else if w.hScan.Some? then w.(go := false)
    else BeginScan(w, TraceOf(stream))
  }

  function OnTimer(w: Window, stream: Stream): Window {
    if w.dialog.Renaming? then w.(deferred := true, timer := false) else OnRefresh(w, stream)
  }

  function OnSelectGame(w: Window, game: nat): Window {
    if game in w.table.rows && w.selectedGame != Some(game) then w.(selectedGame := Some(game), selectedPlayer := None)
    else w
  }

  function OnSelectPlayer(w: Window, listItem: nat): Window {
    if w.selectedGame.Some? then w.(selectedPlayer := if listItem < MAX_PLAYERS then Some(listItem) else None) else w
  }

  function OnOpenRename(w: Window): Window {
    if w.dialog.NoDialog? && w.selectedPlayer.Some? && w.selectedGame.Some?
      && Slot(w.table, w.selectedGame.value, w.selectedPlayer.value)
    then
      var g, p := w.selectedGame.value, w.selectedPlayer.value;
      w.(dialog := Renaming(g, p, w.table.games[g].playerinfo[p]))
    else w
  }

  predicate Slot(t: Table, game: nat, player: nat) {
    game < |t.games| && player < |t.games[game].playerinfo|
  }

  /** A player's nickname is written. */
  function WithLocalName(t: Table, game: nat, player: nat, nick: string): Table
    requires Slot(t, game, player)
  {
    var g := t.games[game];
    t.(games := t.games[game := WithPlayer(g, player, g.playerinfo[player].(localName := nick))])
  }

  /** `UpdatePlayerList` fills in nicknames, one player after the other. */
  function WithLocalNames(t: Table, game: nat, player: nat, names: seq<string>): Table
    decreases |names|
  {
    if names == [] || !Slot(t, game, player) then t
    else WithLocalNames(WithLocalName(t, game, player, names[0]), game, player + 1, names[1..])
  }

  function OnShowNames(w: Window, names: seq<string>): Window {
    if w.selectedGame.Some? then w.(table := WithLocalNames(w.table, w.selectedGame.value, 0, names)) else w
  }

  /** `nick` is the submitted nickname, if there is one. */
  function OnCloseRename(w: Window, nick: Option<string>): Window {
    if w.dialog.NoDialog? then w
    else
      w.(dialog := NoDialog,
         timer := w.timer || (w.deferred && w.autoScan),
         deferred := false,
         table := if nick.Some? && Slot(w.table, w.dialog.game, w.dialog.player) then
             WithLocalName(w.table, w.dialog.game, w.dialog.player, nick.value)
           else w.table)
  }

  function OnToggleAutoScan(w: Window): Window {
    w.(autoScan := !w.autoScan, timer := !w.autoScan)
  }

  function OnApplyDelay(w: Window): Window {
    if w.autoScan then w.(timer := true) else w
  }

  function OnClose(w: Window): Window {
    if w.hScan.Some? && !w.quitting then w.(go := false, quitting := true) else w.(closed := true)
  }

  // ---------------------------------------------------------------- a thread's steps

  function OnThreadStarts(w: Window, i: nat): Window {
    if i < |w.threads| && w.threads[i].Starting? then
      w.(table := Begin(w.table), threads := w.threads[i := Feeding(w.threads[i].trace, 0, false)])
    else w
  }

  function OnCallback(lib: Library, w: Window, i: nat): Window {
    if i < |w.threads| && w.threads[i].Feeding? && !w.threads[i].stopped && w.threads[i].k < |w.threads[i].trace|
      && GoodTable(w.table)
    then
      var f := w.threads[i];
      var a := Consume(lib, w.table, f.trace[f.k], w.go);
      w.(table := a.table, threads := w.threads[i := f.(k := f.k + 1, stopped := a.stop)])
    else w
  }

  /** The terminal callback, as far as `EndScan` gives up the handle. It may come early: a read may fail. */
  function OnLastCallback(w: Window, i: nat): Window {
    if i < |w.threads| && w.threads[i].Feeding? && GoodTable(w.table) then
      w.(table := Finish(w.table), threads := w.threads[i := Ending], hScan := None)
    else w
  }

  /** The rest of `EndScan`. */
  function OnThreadEnds(w: Window, i: nat): Window {
    if i < |w.threads| && w.threads[i].Ending? then
      var gone := w.(threads := w.threads[i := Gone]);
      if w.quitting then OnClose(gone) else gone.(timer := w.timer || w.autoScan)
    else w
  }

  function OnMessage(w: Window, m: Message): Window {
    match m
    case Refresh(stream) => OnRefresh(w, stream)
    case Timer(stream) => OnTimer(w, stream)
    case ToggleAutoScan => OnToggleAutoScan(w)
    case ApplyDelay => OnApplyDelay(w)
    case SelectGame(game) => OnSelectGame(w, game)
    case SelectPlayer(listItem) => OnSelectPlayer(w, listItem)
    case DeselectPlayer => w.(selectedPlayer := None)
    case ShowNames(names) => OnShowNames(w, names)
    case OpenRename => OnOpenRename(w)
    case CloseRename(nick) => OnCloseRename(w, nick)
    case Close => OnClose(w)
  }

  function OnMove(lib: Library, w: Window, i: nat, move: Move): Window {
    match move
    case Start => OnThreadStarts(w, i)
    case Callback => OnCallback(lib, w, i)
    case LastCallback => OnLastCallback(w, i)
    case End => OnThreadEnds(w, i)
  }

  function Next(lib: Library, w: Window, e: Event): Window {
    match e
    case ToWindow(message) => OnMessage(w, message)
    case ByThread(i, move) => OnMove(lib, w, i, move)
  }

  function After(lib: Library, w: Window, events: seq<Event>): Window
    decreases |events|
  {
    if events == [] then w else After(lib, Next(lib, w, events[0]), events[1..])
  }

  lemma {:induction false} AfterConcat(lib: Library, w: Window, a: seq<Event>, b: seq<Event>)
    ensures After(lib, w, a + b) == After(lib, After(lib, w, a), b)
    decreases |a|
  {
    if a == [] {
      assert a + b == b;
    } else {
      assert (a + b)[1..] == a[1..] + b;
      AfterConcat(lib, Next(lib, w, a[0]), a[1..], b);
    }
  }

  /** At the start, automatic scanning refreshes at once. */
  function Initially(autoScan: bool, stream: Stream): Window {
    var t := Table(seq(MAX_SERVERS, _ => NoGame()), seq(MAX_SERVERS, _ => NoGame()), 0, 0, 0, 0, 0, [], []);
    var w := Window(t, [], None, false, false, false, autoScan, false, false, None, None, NoDialog);
    if autoScan then OnRefresh(w, stream) else w
  }

  // ---------------------------------------------------------------- what every step keeps

  /** The thread may still write the table. */
  predicate Writes(t: Thread) { t.Starting? || t.Feeding? }

  /** Only the thread behind `hScan` can write the table. */
  predicate OneWriter(w: Window) {
    && (w.hScan.Some? ==> w.hScan.value < |w.threads| && Writes(w.threads[w.hScan.value]))
    && (forall i :: 0 <= i < |w.threads| && Writes(w.threads[i]) ==> w.hScan == Some(i))
  }

  predicate Idle(w: Window) {
    forall i :: 0 <= i < |w.threads| ==> w.threads[i].Gone?
  }

  /** While automatic scanning is on, another refresh will come. */
  predicate RefreshWillCome(w: Window) {
    w.autoScan && !w.quitting && !w.closed && Idle(w) ==> w.timer || (w.dialog.Renaming? && w.deferred)
  }

  predicate Closes(r: Record, server: nat) {
    r.status == Last && !r.isPlayer && r.server == server
  }

  /** The table after the first `k` callbacks: its servers are those seen, and its rows those closed. */
  predicate Fed(t: Table, trace: seq<Record>, k: nat) {
    && k <= |trace| && Current(t) && t.servers <= (if k == 0 then 0 else trace[k - 1].server + 1)
    && forall j :: 0 <= j < |t.rows| ==> exists i :: 0 <= i < k && Closes(trace[i], t.rows[j])
  }

  predicate ThreadFits(w: Window, t: Thread) {
    match t
    case Starting(trace) => Ordered(trace) && w.table.rows == [] && w.selectedGame.None? && w.dialog.NoDialog?
    case Feeding(trace, k, stopped) => Ordered(trace) && (!stopped ==> Fed(w.table, trace, k))
    case _ => true
  }

  predicate ThreadsFit(w: Window) {
    forall i :: 0 <= i < |w.threads| ==> ThreadFits(w, w.threads[i])
  }

  predicate SelectionFits(w: Window) {
    && (w.selectedGame.Some? ==> w.selectedGame.value in w.table.rows)
    && (w.selectedPlayer.Some? ==> w.selectedGame.Some? && w.selectedPlayer.value < MAX_PLAYERS)
  }

  /** Equal in everything a scan fills in. */
  predicate SameScanned(p: PlayerInfo, q: PlayerInfo) {
    p.(localName := "") == q.(localName := "")
  }

  /** The player being renamed is in a visible row, and holds what it held when the dialog opened. */
  predicate RenameFits(w: Window)
    requires GoodTable(w.table)
  {
    w.dialog.Renaming? ==>
      && w.dialog.game in w.table.rows && w.dialog.game < MAX_SERVERS && w.dialog.player < MAX_PLAYERS
      && SameScanned(w.table.games[w.dialog.game].playerinfo[w.dialog.player], w.dialog.was)
  }

  predicate RowsFit(w: Window) {
    forall j :: 0 <= j < |w.table.rows| ==> w.table.rows[j] < MAX_SERVERS
  }

  predicate Inv(w: Window) {
    && GoodTable(w.table) && RowsFit(w) && OneWriter(w) && RefreshWillCome(w) && ThreadsFit(w) && SelectionFits(w)
    && RenameFits(w)
  }

  lemma TracesAreOrdered(s: Stream)
    ensures Ordered(TraceOf(s))
  {
    RunIsOrdered(Initial(s.http), s.bytes);
  }

  lemma RefreshKeeps(w: Window, stream: Stream)
    requires GoodTable(w.table) && RowsFit(w) && OneWriter(w) && ThreadsFit(w) && SelectionFits(w) && RenameFits(w)
    requires w.dialog.Renaming? ==> RefreshWillCome(w)
    ensures Inv(OnRefresh(w, stream))
  {
    TracesAreOrdered(stream);
  }

  /** `next` is `w` but for nicknames of players in visible rows. */
  predicate OnlyNicknames(w: Table, next: Table) {
    && |next.games| == |w.games| && next == w.(games := next.games)
    && (forall g :: 0 <= g < |w.games| ==>
      && |next.games[g].playerinfo| == |w.games[g].playerinfo|
      && next.games[g].playerCount == w.games[g].playerCount && next.games[g].info == w.games[g].info
      && forall p :: 0 <= p < |w.games[g].playerinfo| ==>
          SameScanned(next.games[g].playerinfo[p], w.games[g].playerinfo[p]))
  }

  lemma {:induction false} NamesAreOnlyNicknames(t: Table, game: nat, player: nat, names: seq<string>)
    ensures OnlyNicknames(t, WithLocalNames(t, game, player, names))
    decreases |names|
  {
    if names != [] && Slot(t, game, player) {
      NamesAreOnlyNicknames(WithLocalName(t, game, player, names[0]), game, player + 1, names[1..]);
    }
  }

  lemma NicknamesKeep(w: Window, next: Window)
    requires Inv(w) && OnlyNicknames(w.table, next.table) && next == w.(table := next.table)
    ensures Inv(next)
  {
    forall i | 0 <= i < |w.threads| ensures ThreadFits(next, next.threads[i]) {
      assert ThreadFits(w, w.threads[i]);
    }
  }

  lemma CloseRenameKeeps(w: Window, nick: Option<string>)
    requires Inv(w)
    ensures Inv(OnCloseRename(w, nick))
  {
    if w.dialog.Renaming? {
      var next := OnCloseRename(w, nick);
      if nick.Some? {
        assert OnlyNicknames(w.table, next.table);
      }
      NicknamesKeep(w, w.(table := next.table));
      forall i | 0 <= i < |w.threads| ensures ThreadFits(next, next.threads[i]) {
        assert ThreadFits(w.(table := next.table), w.threads[i]);
      }
    }
  }

  /** The messages that touch neither the table nor the threads. */
  lemma FlagsKeep(w: Window, next: Window)
    requires Inv(w) && next.table == w.table && next.threads == w.threads && next.hScan == w.hScan
    requires SelectionFits(next) && RenameFits(next) && RefreshWillCome(next)
    requires next.dialog.Renaming? ==> w.dialog.Renaming? || w.selectedGame.Some?
    requires next.selectedGame.Some? ==> w.selectedGame.Some? || w.table.rows != []
    ensures Inv(next)
  {
    forall i | 0 <= i < |w.threads| ensures ThreadFits(next, next.threads[i]) {
      assert ThreadFits(w, w.threads[i]);
    }
  }

  // ---------------------------------------------------------------- threads

  /** A callback comes after every visible row's LAST, so it is about a later server. */
  lemma CallbackIsLater(t: Table, trace: seq<Record>, k: nat)
    requires Ordered(trace) && Fed(t, trace, k) && k < |trace|
    ensures InStep(t, trace[k])
    ensures forall j :: 0 <= j < |t.rows| ==> t.rows[j] < trace[k].server
  {
    if k > 0 {
      assert MayPrecede(trace[k - 1], trace[k].server, trace[k].player);
    }
    forall j | 0 <= j < |t.rows| ensures t.rows[j] < trace[k].server {
      var row := t.rows[j];
      assert exists i :: 0 <= i < k && Closes(trace[i], row);
      var i :| 0 <= i < k && Closes(trace[i], row);
      assert MayPrecede(trace[i], trace[k].server, trace[k].player);
    }
  }

  lemma CallbackFeeds(lib: Library, t: Table, trace: seq<Record>, k: nat, go: bool)
    requires GoodTable(t) && Ordered(trace) && Fed(t, trace, k) && k < |trace|
    ensures var a := Consume(lib, t, trace[k], go);
      && (!a.stop ==> Fed(a.table, trace, k + 1))
      && t.rows <= a.table.rows
      && (forall j :: 0 <= j < |a.table.rows| ==>
        a.table.rows[j] in t.rows || a.table.rows[j] == trace[k].server < MAX_SERVERS)
      && (forall j :: 0 <= j < |t.rows| && t.rows[j] < MAX_SERVERS ==> a.table.games[t.rows[j]] == t.games[t.rows[j]])
  {
    CallbackIsLater(t, trace, k);
    ConsumeWritesItsOwnRow(lib, t, trace[k], go);
    var a := Consume(lib, t, trace[k], go);
    if !a.stop {
      forall j | 0 <= j < |a.table.rows| ensures exists i :: 0 <= i < k + 1 && Closes(trace[i], a.table.rows[j]) {
        if j < |t.rows| {
          assert a.table.rows[j] == t.rows[j];
          var i :| 0 <= i < k && Closes(trace[i], t.rows[j]);
          assert Closes(trace[i], a.table.rows[j]);
        } else {
          assert Closes(trace[k], a.table.rows[j]);
        }
      }
    }
  }

  lemma CallbackKeeps(lib: Library, w: Window, i: nat)
    requires Inv(w)
    ensures Inv(OnCallback(lib, w, i))
  {
    if OnCallback(lib, w, i) != w {
      assert ThreadFits(w, w.threads[i]);
      var f := w.threads[i];
      CallbackFeeds(lib, w.table, f.trace, f.k, w.go);
      var next := OnCallback(lib, w, i);
      forall j | 0 <= j < |next.threads| ensures ThreadFits(next, next.threads[j]) {
        assert ThreadFits(w, w.threads[j]);
      }
    }
  }

  lemma ThreadStartsKeeps(w: Window, i: nat)
    requires Inv(w)
    ensures Inv(OnThreadStarts(w, i))
  {
    if i < |w.threads| && w.threads[i].Starting? {
      var next := OnThreadStarts(w, i);
      assert ThreadFits(w, w.threads[i]);
      forall j | 0 <= j < |next.threads| ensures ThreadFits(next, next.threads[j]) {
        assert ThreadFits(w, w.threads[j]);
      }
    }
  }

  lemma LastCallbackKeeps(w: Window, i: nat)
    requires Inv(w)
    ensures Inv(OnLastCallback(w, i))
  {
    var next := OnLastCallback(w, i);
    if next != w {
      forall j | 0 <= j < |next.threads| ensures ThreadFits(next, next.threads[j]) {
        assert ThreadFits(w, w.threads[j]);
      }
    }
  }

  lemma ThreadEndsKeeps(w: Window, i: nat)
    requires Inv(w)
    ensures Inv(OnThreadEnds(w, i))
  {
    var next := OnThreadEnds(w, i);
    if next != w {
      forall j | 0 <= j < |next.threads| ensures ThreadFits(next, next.threads[j]) {
        assert ThreadFits(w, w.threads[j]);
      }
    }
  }

  lemma TimerKeeps(w: Window, stream: Stream)
    requires Inv(w)
    ensures Inv(OnTimer(w, stream))
  {
    if w.dialog.Renaming? {
      FlagsKeep(w, OnTimer(w, stream));
    } else {
      RefreshKeeps(w, stream);
    }
  }

  lemma SelectGameKeeps(w: Window, game: nat)
    requires Inv(w)
    ensures Inv(OnSelectGame(w, game))
  {
    FlagsKeep(w, OnSelectGame(w, game));
  }

  lemma SelectPlayerKeeps(w: Window, player: Option<nat>)
    requires Inv(w) && (player.Some? ==> w.selectedGame.Some? && player.value < MAX_PLAYERS)
    ensures Inv(w.(selectedPlayer := player))
  {
    FlagsKeep(w, w.(selectedPlayer := player));
  }

  lemma OpenRenameKeeps(w: Window)
    requires Inv(w)
    ensures Inv(OnOpenRename(w))
  {
    FlagsKeep(w, OnOpenRename(w));
  }

  lemma SettingsKeep(w: Window)
    requires Inv(w)
    ensures Inv(OnToggleAutoScan(w)) && Inv(OnApplyDelay(w))
  {
    FlagsKeep(w, OnToggleAutoScan(w));
    FlagsKeep(w, OnApplyDelay(w));
  }

  lemma CloseKeeps(w: Window)
    requires Inv(w)
    ensures Inv(OnClose(w))
  {
    FlagsKeep(w, OnClose(w));
  }

  lemma ShowNamesKeeps(w: Window, names: seq<string>)
    requires Inv(w)
    ensures Inv(OnShowNames(w, names))
  {
    if w.selectedGame.Some? {
      NamesAreOnlyNicknames(w.table, w.selectedGame.value, 0, names);
      NicknamesKeep(w, OnShowNames(w, names));
    }
  }

  lemma MessageKeeps(w: Window, m: Message)
    requires Inv(w)
    ensures Inv(OnMessage(w, m))
  {
    match m
    case Refresh(stream) => RefreshKeeps(w, stream);
    case Timer(stream) => TimerKeeps(w, stream);
    case ToggleAutoScan => SettingsKeep(w);
    case ApplyDelay => SettingsKeep(w);
    case SelectGame(game) => SelectGameKeeps(w, game);
    case SelectPlayer(listItem) =>
      if w.selectedGame.Some? {
        SelectPlayerKeeps(w, if listItem < MAX_PLAYERS then Some(listItem) else None);
      }
    case DeselectPlayer => SelectPlayerKeeps(w, None);
    case ShowNames(names) => ShowNamesKeeps(w, names);
    case OpenRename => OpenRenameKeeps(w);
    case CloseRename(nick) => CloseRenameKeeps(w, nick);
    case Close => CloseKeeps(w);
  }

  lemma NextKeeps(lib: Library, w: Window, e: Event)
    requires Inv(w)
    ensures Inv(Next(lib, w, e))
  {
    match e
    case ToWindow(message) => MessageKeeps(w, message);
    case ByThread(i, move) =>
      match move
      case Start => ThreadStartsKeeps(w, i);
      case Callback => CallbackKeeps(lib, w, i);
      case LastCallback => LastCallbackKeeps(w, i);
      case End => ThreadEndsKeeps(w, i);
  }

  lemma {:induction false} AlwaysInv(lib: Library, w: Window, events: seq<Event>)
    requires Inv(w)
    ensures Inv(After(lib, w, events))
    decreases |events|
  {
    if events != [] {
      NextKeeps(lib, w, events[0]);
      AlwaysInv(lib, Next(lib, w, events[0]), events[1..]);
    }
  }

  lemma InitiallyInv(autoScan: bool, stream: Stream)
    ensures Inv(Initially(autoScan, stream))
  {
    TracesAreOrdered(stream);
  }

  // ---------------------------------------------------------------- what every run keeps

  /** Whatever order messages and thread steps come in: at most one thread can write the table. */
  lemma ScansNeverOverlap(lib: Library, autoScan: bool, stream: Stream, events: seq<Event>, i: nat, j: nat)
    requires var w := After(lib, Initially(autoScan, stream), events);
      i < |w.threads| && j < |w.threads| && Writes(w.threads[i]) && Writes(w.threads[j])
    ensures i == j
  {
    InitiallyInv(autoScan, stream);
    AlwaysInv(lib, Initially(autoScan, stream), events);
  }

  /** With automatic scanning on, no thread at work and nobody quitting, the timer is set, or the rename dialog is open
      and will set it. */
  lemma AutoRefreshIsNeverLost(lib: Library, autoScan: bool, stream: Stream, events: seq<Event>)
    ensures RefreshWillCome(After(lib, Initially(autoScan, stream), events))
  {
    InitiallyInv(autoScan, stream);
    AlwaysInv(lib, Initially(autoScan, stream), events);
  }

  lemma MovesCreateNoThread(lib: Library, w: Window, i: nat, move: Move)
    ensures |OnMove(lib, w, i, move).threads| == |w.threads|
  {
  }

  lemma RefreshWaits(w: Window, stream: Stream)
    requires w.dialog.Renaming?
    ensures OnRefresh(w, stream).threads == w.threads && OnTimer(w, stream).threads == w.threads
  {
  }

  lemma ClosingCreatesNoThread(w: Window, nick: Option<string>)
    ensures OnCloseRename(w, nick).threads == w.threads && OnClose(w).threads == w.threads
  {
  }

  lemma MessagesCreateNoThread(w: Window, m: Message)
    requires w.dialog.Renaming?
    ensures |OnMessage(w, m).threads| == |w.threads|
  {
    match m
    case Refresh(stream) => RefreshWaits(w, stream);
    case Timer(stream) => RefreshWaits(w, stream);
    case CloseRename(nick) => ClosingCreatesNoThread(w, nick);
    case Close => ClosingCreatesNoThread(w, None);
    case _ =>
  }

  /** No scan begins while the rename dialog is open. */
  lemma NoScanBeginsWhileRenaming(lib: Library, w: Window, e: Event)
    requires w.dialog.Renaming?
    ensures |Next(lib, w, e).threads| == |w.threads|
  {
    match e
    case ToWindow(message) => MessagesCreateNoThread(w, message);
    case ByThread(i, move) => MovesCreateNoThread(lib, w, i, move);
  }

  /** The player being renamed keeps, in its place, everything a scan fills in, from the moment the dialog opens. */
  lemma RenamedPlayerIsFrozen(lib: Library, autoScan: bool, stream: Stream, events: seq<Event>)
    ensures var w := After(lib, Initially(autoScan, stream), events);
      w.dialog.Renaming? ==>
        && Slot(w.table, w.dialog.game, w.dialog.player)
        && SameScanned(w.table.games[w.dialog.game].playerinfo[w.dialog.player], w.dialog.was)
  {
    InitiallyInv(autoScan, stream);
    AlwaysInv(lib, Initially(autoScan, stream), events);
  }

  // ---------------------------------------------------------------- stopping

  /** The same rows, announcements and games, but for nicknames. */
  predicate NothingStored(t: Table, next: Table) {
    OnlyNicknames(t, t.(games := next.games)) && next.rows == t.rows && next.notes == t.notes
  }

  /** Thread `i`, which had `started` or not, has been asked to stop, and has stored nothing since the table was `t`. */
  predicate Halted(w: Window, i: nat, started: bool, t: Table) {
    && i < |w.threads|
    && (w.hScan == Some(i) ==>
      && !w.go && GoodTable(w.table) && NothingStored(t, w.table)
      && (started ==> w.threads[i].Feeding? && OnlyNicknames(t, w.table)))
  }

  /** The thread's first lines move the games over, but a scan has no rows yet. */
  lemma StartKeepsHalted(w: Window, i: nat, started: bool, t: Table, j: nat)
    requires Inv(w) && Halted(w, i, started, t)
    ensures Halted(OnThreadStarts(w, j), i, started, t)
  {
    if j < |w.threads| && w.threads[j].Starting? {
      assert Writes(w.threads[j]) && ThreadFits(w, w.threads[j]);
    }
  }

  lemma CallbackKeepsHalted(lib: Library, w: Window, i: nat, started: bool, t: Table, j: nat)
    requires Inv(w) && Halted(w, i, started, t)
    ensures Halted(OnCallback(lib, w, j), i, started, t)
  {
    if j < |w.threads| && w.threads[j].Feeding? {
      assert Writes(w.threads[j]);
    }
  }

  lemma EndKeepsHalted(w: Window, i: nat, started: bool, t: Table, j: nat)
    requires Inv(w) && Halted(w, i, started, t)
    ensures Halted(OnLastCallback(w, j), i, started, t) && Halted(OnThreadEnds(w, j), i, started, t)
  {
  }

  lemma MoveKeepsHalted(lib: Library, w: Window, i: nat, started: bool, t: Table, j: nat, move: Move)
    requires Inv(w) && Halted(w, i, started, t)
    ensures Halted(OnMove(lib, w, j, move), i, started, t)
  {
    match move
    case Start => StartKeepsHalted(w, i, started, t, j);
    case Callback => CallbackKeepsHalted(lib, w, i, started, t, j);
    case _ => EndKeepsHalted(w, i, started, t, j);
  }

  lemma NicknamesCompose(t: Table, t1: Table, t2: Table)
    requires OnlyNicknames(t, t1) && OnlyNicknames(t1, t2)
    ensures OnlyNicknames(t, t2)
  {
  }

  lemma CloseRenameWrites(w: Window, nick: Option<string>)
    requires Inv(w)
    ensures OnlyNicknames(w.table, OnCloseRename(w, nick).table)
  {
    if w.dialog.Renaming? && nick.Some? {
      assert OnlyNicknames(w.table, WithLocalName(w.table, w.dialog.game, w.dialog.player, nick.value));
    }
  }

  /** While there is a scan, a refresh only asks it to stop. */
  lemma RefreshWhileScanning(w: Window, stream: Stream)
    requires w.hScan.Some?
    ensures OnRefresh(w, stream) == w.(go := OnRefresh(w, stream).go) && (!w.go ==> !OnRefresh(w, stream).go)
    ensures var next := OnTimer(w, stream);
      next.threads == w.threads && next.table == w.table && (!w.go ==> !next.go)
  {
  }

  lemma MessageLeavesThreads(w: Window, m: Message)
    requires w.hScan.Some?
    ensures var next := OnMessage(w, m); next.threads == w.threads && (!w.go ==> !next.go)
  {
    match m
    case Refresh(stream) => RefreshWhileScanning(w, stream);
    case Timer(stream) => RefreshWhileScanning(w, stream);
    case CloseRename(nick) => assert OnMessage(w, m) == OnCloseRename(w, nick);
    case _ =>
  }

  /** Only a new scan adds a thread, and its number is new. */
  lemma MessageKeepsThreads(w: Window, m: Message)
    requires w.hScan.None?
    ensures var next := OnMessage(w, m);
      |w.threads| <= |next.threads| && (next.hScan.None? || next.hScan == Some(|w.threads|))
  {
    match m
    case CloseRename(nick) => assert OnMessage(w, m) == OnCloseRename(w, nick);
    case Timer(stream) => assert OnMessage(w, m) == OnTimer(w, stream);
    case _ =>
  }

  /** While there is a scan, messages write nothing but nicknames. */
  lemma MessageWrites(w: Window, m: Message)
    requires Inv(w) && w.hScan.Some?
    ensures OnlyNicknames(w.table, OnMessage(w, m).table)
  {
    match m
    case ShowNames(names) =>
      if w.selectedGame.Some? {
        NamesAreOnlyNicknames(w.table, w.selectedGame.value, 0, names);
      }
    case CloseRename(nick) => CloseRenameWrites(w, nick);
    case Refresh(stream) => RefreshWhileScanning(w, stream);
    case Timer(stream) => RefreshWhileScanning(w, stream);
    case _ => assert OnMessage(w, m).table == w.table;
  }

  lemma MessageKeepsHalted(w: Window, i: nat, started: bool, t: Table, m: Message)
    requires Inv(w) && Halted(w, i, started, t)
    ensures Halted(OnMessage(w, m), i, started, t)
  {
    MessageKeeps(w, m);
    var next := OnMessage(w, m);
    if w.hScan.Some? {
      MessageLeavesThreads(w, m);
      MessageWrites(w, m);
      if w.hScan.value == i {
        NicknamesCompose(t, t.(games := w.table.games), t.(games := next.table.games));
        if started {
          NicknamesCompose(t, w.table, next.table);
        }
      }
    } else {
      MessageKeepsThreads(w, m);
    }
  }

  lemma {:induction false} HaltedStays(lib: Library, w: Window, i: nat, started: bool, t: Table, events: seq<Event>)
    requires Inv(w) && Halted(w, i, started, t)
    ensures Halted(After(lib, w, events), i, started, t)
    decreases |events|
  {
    if events != [] {
      var e := events[0];
      NextKeeps(lib, w, e);
      match e {
        case ToWindow(message) => MessageKeepsHalted(w, i, started, t, message);
        case ByThread(j, move) => MoveKeepsHalted(lib, w, i, started, t, j, move);
      }
      HaltedStays(lib, Next(lib, w, e), i, started, t, events[1..]);
    }
  }

  /** Once a scan has been asked to stop, even before its thread runs, and until its terminal callback: it stores and
      announces nothing more, the request stands, and the table keeps its rows, its games and their players, but for
      nicknames. Once the thread runs, the rest of the table stays as well. */
  lemma StopIsFinal(lib: Library, w: Window, i: nat, events: seq<Event>)
    requires Inv(w) && w.hScan == Some(i) && !w.go
    ensures var w' := After(lib, w, events);
      w'.hScan == Some(i) ==>
        && !w'.go && NothingStored(w.table, w'.table)
        && (w.threads[i].Feeding? ==> OnlyNicknames(w.table, w'.table))
  {
    HaltedStays(lib, w, i, w.threads[i].Feeding?, w.table, events);
  }
}
