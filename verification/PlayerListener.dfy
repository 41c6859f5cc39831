/** A listener that follows the players of one game through the log, whatever else is announced. */
module PlayerListener {
  import opened Common
  import opened ParserSpec
  import opened ParserRuns
  import opened SessionTable
  import opened Notifications

  type Names = map<nat, string>

  /** The listener of one game: it knows the players by their identifiers, and their names in the game. */
  function HearPlayer(game: nat, names: Names, note: Note): Names {
    match note
    case PlayerQuit(g, p) => if g == game then names - {p.uniqueIdentifier} else names
    case PlayerJoined(g, p) => if g == game then names[p.uniqueIdentifier := p.ingameName] else names
    case NickChanged(g, _, p) => if g == game then names[p.uniqueIdentifier := p.ingameName] else names
    case _ => names
  }

  function ListenPlayers(game: nat, names: Names, notes: seq<Note>): Names
    decreases |notes|
  {
    if notes == [] then names else ListenPlayers(game, HearPlayer(game, names, notes[0]), notes[1..])
  }

  lemma {:induction false} ListenPlayersConcat(game: nat, names: Names, a: seq<Note>, b: seq<Note>)
    ensures ListenPlayers(game, names, a + b) == ListenPlayers(game, ListenPlayers(game, names, a), b)
    decreases |a|
  {
    if a == [] {
      assert a + b == b;
    } else {
      assert (a + b)[1..] == a[1..] + b;
      ListenPlayersConcat(game, HearPlayer(game, names, a[0]), a[1..], b);
    }
  }

  /** A note about players of the game. */
  predicate Concerns(game: nat, n: Note) {
    IsPlayerNote(n) && n.game == game
  }

  lemma {:induction false} OtherNotesAreIgnored(game: nat, names: Names, notes: seq<Note>)
    requires forall i :: 0 <= i < |notes| ==> !Concerns(game, notes[i])
    ensures ListenPlayers(game, names, notes) == names
    decreases |notes|
  {
    if notes != [] {
      OtherNotesAreIgnored(game, names, notes[1..]);
    }
  }

  function PlayerIds(players: seq<PlayerInfo>): set<nat> {
    set i | 0 <= i < |players| :: players[i].uniqueIdentifier
  }

  /** The listener knows exactly these players, under these names. */
  predicate Holds(names: Names, players: seq<PlayerInfo>) {
    && names.Keys == PlayerIds(players)
    && (forall i :: 0 <= i < |players| ==> names[players[i].uniqueIdentifier] == players[i].ingameName)
  }

  /** Players that share an identifier share their name. */
  predicate NamesAgree(players: seq<PlayerInfo>) {
    forall i, j :: 0 <= i < j < |players| && players[i].uniqueIdentifier == players[j].uniqueIdentifier ==>
      players[i].ingameName == players[j].ingameName
  }

  // ---------------------------------------------------------------- one game of both tables

  lemma FindPlayerMisses(g: GameInfo, id: nat)
    ensures FindPlayer(g, id) == Counted(g) <==> id !in PlayerIds(CountedPlayers(g))
  {
    var i := FindPlayer(g, id);
    if i < Counted(g) {
      assert CountedPlayers(g)[i].uniqueIdentifier == id;
    }
  }

  lemma PlayerIdsFirst(players: seq<PlayerInfo>)
    requires players != []
    ensures PlayerIds(players) == {players[0].uniqueIdentifier} + PlayerIds(players[1..])
  {
    assert forall i :: 1 <= i < |players| ==> players[i] == players[1..][i - 1];
  }

  lemma ListenOne(game: nat, names: Names, note: Note)
    ensures ListenPlayers(game, names, [note]) == HearPlayer(game, names, note)
  {
    assert [note][1..] == [];
  }

  lemma {:induction false} QuitsAreHeard(names: Names, players: seq<PlayerInfo>, new_: GameInfo)
    ensures ListenPlayers(new_.info.uniqueIdentifier, names, Quits(players, new_)) ==
      names - (PlayerIds(players) - PlayerIds(CountedPlayers(new_)))
    decreases |players|
  {
    if players != [] {
      var game, p := new_.info.uniqueIdentifier, players[0];
      var missing := FindPlayer(new_, p.uniqueIdentifier) == Counted(new_);
      var first := if missing then [PlayerQuit(game, p)] else [];
      FindPlayerMisses(new_, p.uniqueIdentifier);
      ListenOne(game, names, PlayerQuit(game, p));
      ListenPlayersConcat(game, names, first, Quits(players[1..], new_));
      QuitsAreHeard(ListenPlayers(game, names, first), players[1..], new_);
      PlayerIdsFirst(players);
    }
  }

  /** What the listener holds of a player that has been in the game before: the name of then, or already that of now. */
  predicate Expects(names: Names, old_: GameInfo, p: PlayerInfo) {
    var i := FindPlayer(old_, p.uniqueIdentifier);
    i < Counted(old_) ==>
      && p.uniqueIdentifier in names
      && (names[p.uniqueIdentifier] == old_.playerinfo[i].ingameName || names[p.uniqueIdentifier] == p.ingameName)
  }

  lemma OneArrival(names: Names, old_: GameInfo, new_: GameInfo, p: PlayerInfo)
    requires Expects(names, old_, p)
    ensures ListenPlayers(new_.info.uniqueIdentifier, names, ArrivalOf(old_, new_, p)) ==
      names[p.uniqueIdentifier := p.ingameName]
  {
    var game := new_.info.uniqueIdentifier;
    var notes := ArrivalOf(old_, new_, p);
    if notes != [] {
      assert notes == [notes[0]];
      ListenOne(game, names, notes[0]);
    }
  }

  /** After the first arrival the listener expects the rest as before. */
  lemma RestIsExpected(names: Names, old_: GameInfo, players: seq<PlayerInfo>)
    requires players != [] && NamesAgree(players)
    requires forall i :: 0 <= i < |players| ==> Expects(names, old_, players[i])
    ensures NamesAgree(players[1..])
    ensures forall i :: 0 <= i < |players[1..]| ==>
      Expects(names[players[0].uniqueIdentifier := players[0].ingameName], old_, players[1..][i])
  {
    var p, rest := players[0], players[1..];
    forall i | 0 <= i < |rest| ensures Expects(names[p.uniqueIdentifier := p.ingameName], old_, rest[i]) {
      assert rest[i] == players[i + 1] && Expects(names, old_, players[i + 1]);
    }
  }

  /** The players arrived: the listener knows their names, and has forgotten nobody. */
  predicate Arrived(names: Names, heard: Names, players: seq<PlayerInfo>) {
    && heard.Keys == names.Keys + PlayerIds(players)
    && (forall i :: 0 <= i < |players| ==> heard[players[i].uniqueIdentifier] == players[i].ingameName)
    && (forall id :: id in names && id !in PlayerIds(players) ==> heard[id] == names[id])
  }

  lemma FirstArrived(names: Names, heard: Names, players: seq<PlayerInfo>)
    requires players != [] && NamesAgree(players)
    requires Arrived(names[players[0].uniqueIdentifier := players[0].ingameName], heard, players[1..])
    ensures Arrived(names, heard, players)
  {
    var p, rest := players[0], players[1..];
    PlayerIdsFirst(players);
    forall i | 0 <= i < |players| ensures heard[players[i].uniqueIdentifier] == players[i].ingameName {
      if i > 0 {
        assert rest[i - 1] == players[i];
      } else if p.uniqueIdentifier in PlayerIds(rest) {
        var j :| 0 <= j < |rest| && rest[j].uniqueIdentifier == p.uniqueIdentifier;
        assert rest[j] == players[j + 1];
      }
    }
  }

  lemma {:induction false} ArrivalsAreHeard(names: Names, old_: GameInfo, new_: GameInfo, players: seq<PlayerInfo>)
    requires NamesAgree(players) && forall i :: 0 <= i < |players| ==> Expects(names, old_, players[i])
    ensures Arrived(names, ListenPlayers(new_.info.uniqueIdentifier, names, Arrivals(old_, new_, players)), players)
    decreases |players|
  {
    if players != [] {
      var game, p, rest := new_.info.uniqueIdentifier, players[0], players[1..];
      OneArrival(names, old_, new_, p);
      ListenPlayersConcat(game, names, ArrivalOf(old_, new_, p), Arrivals(old_, new_, rest));
      RestIsExpected(names, old_, players);
      var next := names[p.uniqueIdentifier := p.ingameName];
      ArrivalsAreHeard(next, old_, new_, rest);
      FirstArrived(names, ListenPlayers(game, next, Arrivals(old_, new_, rest)), players);
    }
  }

  lemma FoundIsHeld(names: Names, old_: GameInfo, p: PlayerInfo)
    requires Holds(names, CountedPlayers(old_))
    ensures Expects(names, old_, p)
  {
    var i := FindPlayer(old_, p.uniqueIdentifier);
    if i < Counted(old_) {
      assert CountedPlayers(old_)[i] == old_.playerinfo[i];
    }
  }

  /** The notes of one game take a listener that holds its old players to its new ones, unless two of the new players
      share an identifier under different names. */
  lemma PairReplays(names: Names, old_: GameInfo, new_: GameInfo)
    requires Holds(names, CountedPlayers(old_))
    ensures Holds(ListenPlayers(new_.info.uniqueIdentifier, names, PlayerNotes(old_, new_)), CountedPlayers(new_)) <==>
      NamesAgree(CountedPlayers(new_))
  {
    var game, was, players := new_.info.uniqueIdentifier, CountedPlayers(old_), CountedPlayers(new_);
    if NamesAgree(players) {
      var stayed := ListenPlayers(game, names, Quits(was, new_));
      QuitsAreHeard(names, was, new_);
      ListenPlayersConcat(game, names, Quits(was, new_), Arrivals(old_, new_, players));
      forall i | 0 <= i < |players| ensures Expects(stayed, old_, players[i]) {
        FoundIsHeld(names, old_, players[i]);
        assert players[i].uniqueIdentifier in PlayerIds(players);
      }
      ArrivalsAreHeard(stayed, old_, new_, players);
    }
  }

  // ---------------------------------------------------------------- the log of a scan

  lemma {:induction false} QuitsAreOfTheGame(players: seq<PlayerInfo>, new_: GameInfo)
    ensures forall n :: n in Quits(players, new_) ==> n.PlayerQuit? && n.game == new_.info.uniqueIdentifier
    decreases |players|
  {
    if players != [] {
      QuitsAreOfTheGame(players[1..], new_);
    }
  }

  lemma {:induction false} ArrivalsAreOfTheGame(old_: GameInfo, new_: GameInfo, players: seq<PlayerInfo>)
    ensures forall n :: n in Arrivals(old_, new_, players) ==> IsPlayerNote(n) && n.game == new_.info.uniqueIdentifier
    decreases |players|
  {
    if players != [] {
      ArrivalsAreOfTheGame(old_, new_, players[1..]);
    }
  }

  /** A previous game brings notes about players only under its own identifier, and only if it is still there. */
  lemma OldGameConcerns(game: nat, games: seq<GameInfo>, servers: nat, old_: GameInfo, n: Note)
    requires servers <= |games| && n in OldGameNotes(games, servers, old_) && Concerns(game, n)
    ensures old_.info.uniqueIdentifier == game && FindGame(games, servers, game) < servers
  {
    var i := FindGame(games, servers, old_.info.uniqueIdentifier);
    if i < servers {
      QuitsAreOfTheGame(CountedPlayers(old_), games[i]);
      ArrivalsAreOfTheGame(old_, games[i], CountedPlayers(games[i]));
    }
  }

  /** The game at `at` is the only one with its identifier. */
  predicate OnlyAt(games: seq<GameInfo>, count: nat, at: nat)
    requires count <= |games|
  {
    at < count
    && forall i :: 0 <= i < count && games[i].info.uniqueIdentifier == games[at].info.uniqueIdentifier ==> i == at
  }

  lemma {:induction false} EndConcerns(game: nat, games: seq<GameInfo>, servers: nat, prev: seq<GameInfo>, n: Note)
    requires servers <= |games| && n in EndNotes(games, servers, prev) && Concerns(game, n)
    ensures game in IdsOf(prev) && game in IdsOf(games[..servers])
    decreases |prev|
  {
    IdsOfFirst(prev);
    if n in OldGameNotes(games, servers, prev[0]) {
      OldGameConcerns(game, games, servers, prev[0], n);
      FindGameMisses(games, servers, game);
    } else {
      EndConcerns(game, games, servers, prev[1..], n);
    }
  }

  lemma OthersAreSilent(game: nat, games: seq<GameInfo>, servers: nat, prev: seq<GameInfo>)
    requires servers <= |games| && game !in IdsOf(prev)
    ensures forall i :: 0 <= i < |EndNotes(games, servers, prev)| ==>
      !Concerns(game, EndNotes(games, servers, prev)[i])
  {
    var notes := EndNotes(games, servers, prev);
    forall i | 0 <= i < |notes| ensures !Concerns(game, notes[i]) {
      if Concerns(game, notes[i]) {
        EndConcerns(game, games, servers, prev, notes[i]);
      }
    }
  }

  /** Of all notes at the end of a scan, the listener of a game hears those of its own pair. */
  lemma OtherGameIsSilent(names: Names, games: seq<GameInfo>, servers: nat, was: GameInfo, game: nat)
    requires servers <= |games| && was.info.uniqueIdentifier != game
    ensures ListenPlayers(game, names, OldGameNotes(games, servers, was)) == names
  {
    var first := OldGameNotes(games, servers, was);
    forall i | 0 <= i < |first| ensures !Concerns(game, first[i]) {
      if Concerns(game, first[i]) {
        OldGameConcerns(game, games, servers, was, first[i]);
      }
    }
    OtherNotesAreIgnored(game, names, first);
  }

  lemma {:induction false} EndIsThePair(names: Names, games: seq<GameInfo>, servers: nat, prev: seq<GameInfo>, at: nat)
    requires servers <= |games| && OnlyAt(prev, |prev|, at)
    requires FindGame(games, servers, prev[at].info.uniqueIdentifier) < servers
    ensures var game := prev[at].info.uniqueIdentifier;
      ListenPlayers(game, names, EndNotes(games, servers, prev)) ==
        ListenPlayers(game, names, PlayerNotes(prev[at], games[FindGame(games, servers, game)]))
    decreases |prev|
  {
    var game := prev[at].info.uniqueIdentifier;
    var first, rest := OldGameNotes(games, servers, prev[0]), EndNotes(games, servers, prev[1..]);
    ListenPlayersConcat(game, names, first, rest);
    if at == 0 {
      OthersAreSilent(game, games, servers, prev[1..]);
      OtherNotesAreIgnored(game, ListenPlayers(game, names, first), rest);
    } else {
      OtherGameIsSilent(names, games, servers, prev[0], game);
      EndIsThePair(names, games, servers, prev[1..], at - 1);
    }
  }

  /** While a scan runs, only new games are announced. */
  lemma {:induction false} OnlyNewGamesMeanwhile(lib: Library, t: Table, trace: seq<Record>)
    requires GoodTable(t)
    ensures var c := ConsumeAll(lib, t, trace).table;
      t.notes <= c.notes && forall i :: |t.notes| <= i < |c.notes| ==> c.notes[i].GameNew?
    decreases |trace|
  {
    if trace != [] {
      var a := Consume(lib, t, trace[0], true);
      if !a.stop {
        OnlyNewGamesMeanwhile(lib, a.table, trace[1..]);
      }
    }
  }

  /** What a scan adds to the log: new games, and then the notes of the end. */
  lemma LogOfAScan(lib: Library, t: Table, trace: seq<Record>) returns (meanwhile: seq<Note>)
    requires GoodTable(t)
    ensures var r := RunScan(lib, t, trace);
      && t.notes <= r.notes && (forall i :: 0 <= i < |meanwhile| ==> meanwhile[i].GameNew?)
      && r.notes[|t.notes|..] == meanwhile + EndNotes(r.games, r.servers, t.games[..t.servers])
  {
    var c := ConsumeAll(lib, Begin(t), trace).table;
    OnlyNewGamesMeanwhile(lib, Begin(t), trace);
    ConsumeAllKeepsPrev(lib, Begin(t), trace);
    meanwhile := c.notes[|t.notes|..];
    assert Finish(c).notes[|t.notes|..] == meanwhile + EndNotes(c.games, c.servers, c.prev[..c.prevCount]);
  }

  /** Exactly one game of the table has the identifier. */
  predicate OneGame(t: Table, game: nat)
    requires t.servers <= |t.games|
  {
    var i := FindGame(t.games, t.servers, game);
    i < t.servers && OnlyAt(t.games, t.servers, i)
  }

  /** The players of that game. */
  function PlayersOf(t: Table, game: nat): seq<PlayerInfo>
    requires t.servers <= |t.games| && OneGame(t, game)
  {
    CountedPlayers(t.games[FindGame(t.games, t.servers, game)])
  }

  lemma OnlyAtInTable(t: Table, game: nat)
    requires t.servers <= |t.games| && OneGame(t, game)
    ensures OnlyAt(t.games[..t.servers], t.servers, FindGame(t.games, t.servers, game))
  {
    assert forall i :: 0 <= i < t.servers ==> t.games[..t.servers][i] == t.games[i];
  }

  /** One scan: a listener that held the players of a game holds its players after the scan, exactly if no two of them
      share an identifier under different names. */
  lemma PlayersReplay(lib: Library, t: Table, trace: seq<Record>, game: nat, names: Names)
    requires GoodTable(t) && OneGame(t, game) && OneGame(RunScan(lib, t, trace), game)
    requires Holds(names, PlayersOf(t, game))
    ensures var r := RunScan(lib, t, trace);
      && t.notes <= r.notes
      && (Holds(ListenPlayers(game, names, r.notes[|t.notes|..]), PlayersOf(r, game))
          <==> NamesAgree(PlayersOf(r, game)))
  {
    var r, prev := RunScan(lib, t, trace), t.games[..t.servers];
    var at, now := FindGame(t.games, t.servers, game), FindGame(r.games, r.servers, game);
    var meanwhile := LogOfAScan(lib, t, trace);
    ListenPlayersConcat(game, names, meanwhile, EndNotes(r.games, r.servers, prev));
    OtherNotesAreIgnored(game, names, meanwhile);
    OnlyAtInTable(t, game);
    EndIsThePair(names, r.games, r.servers, prev, at);
    PairReplays(names, prev[at], r.games[now]);
  }

  /** Nothing is announced about the players of a game that comes or goes. */
  lemma OnlyStayingGames(lib: Library, t: Table, trace: seq<Record>, game: nat, n: Note)
    requires GoodTable(t)
    requires t.notes <= RunScan(lib, t, trace).notes
    requires n in RunScan(lib, t, trace).notes[|t.notes|..] && Concerns(game, n)
    ensures game in TableIds(t) && game in TableIds(RunScan(lib, t, trace))
  {
    var r, prev := RunScan(lib, t, trace), t.games[..t.servers];
    var meanwhile := LogOfAScan(lib, t, trace);
    assert n !in meanwhile;
    EndConcerns(game, r.games, r.servers, prev, n);
  }

  /** The game has its identifier to itself in every table of the run, and its players' names agree. */
  predicate Stays(lib: Library, t: Table, traces: seq<seq<Record>>, game: nat)
    requires GoodTable(t)
    decreases |traces|
  {
    && OneGame(t, game) && NamesAgree(PlayersOf(t, game))
    && (traces != [] ==> Stays(lib, RunScan(lib, t, traces[0]), traces[1..], game))
  }

  /** Any number of scans: as long as the game stays, the listener always holds exactly its players. */
  lemma {:induction false} ListenerHoldsThePlayers(lib: Library, t: Table, traces: seq<seq<Record>>, game: nat,
                                                   names: Names)
    requires GoodTable(t) && Stays(lib, t, traces, game) && Holds(names, PlayersOf(t, game))
    ensures var r := RunScans(lib, t, traces);
      && t.notes <= r.notes && OneGame(r, game)
      && Holds(ListenPlayers(game, names, r.notes[|t.notes|..]), PlayersOf(r, game))
    decreases |traces|
  {
    if traces == [] {
      assert t.notes[|t.notes|..] == [];
    } else {
      var next, r := RunScan(lib, t, traces[0]), RunScans(lib, t, traces);
      PlayersReplay(lib, t, traces[0], game, names);
      var heard := next.notes[|t.notes|..];
      ListenerHoldsThePlayers(lib, next, traces[1..], game, ListenPlayers(game, names, heard));
      SplitSince(t.notes, next.notes, r.notes);
      ListenPlayersConcat(game, names, heard, r.notes[|next.notes|..]);
    }
  }

  // ---------------------------------------------------------------- nick changes

  /** The first of the players with its identifier. */
  predicate IsFirst(players: seq<PlayerInfo>, p: PlayerInfo) {
    exists k :: 0 <= k < |players| && players[k] == p && p.uniqueIdentifier !in PlayerIds(players[..k])
  }

  lemma FoundIsFirst(g: GameInfo, id: nat, was: PlayerInfo)
    ensures var i := FindPlayer(g, id);
      i < Counted(g) && g.playerinfo[i] == was <==> was.uniqueIdentifier == id && IsFirst(CountedPlayers(g), was)
  {
    var i, players := FindPlayer(g, id), CountedPlayers(g);
    if i < Counted(g) && g.playerinfo[i] == was {
      assert players[i] == was && id !in PlayerIds(players[..i]);
    }
    if was.uniqueIdentifier == id && IsFirst(players, was) {
      var k :| 0 <= k < |players| && players[k] == was && id !in PlayerIds(players[..k]);
      assert g.playerinfo[k] == was;
      if i < k {
        assert players[..k][i].uniqueIdentifier == id;
      }
    }
  }

  lemma {:induction false} NickChangesAreExact(old_: GameInfo, new_: GameInfo, players: seq<PlayerInfo>,
                                               was: PlayerInfo, p: PlayerInfo)
    ensures NickChanged(new_.info.uniqueIdentifier, was, p) in Arrivals(old_, new_, players) <==>
      && p in players && IsFirst(CountedPlayers(old_), was)
      && was.uniqueIdentifier == p.uniqueIdentifier && was.ingameName != p.ingameName
    decreases |players|
  {
    if players != [] {
      var note := NickChanged(new_.info.uniqueIdentifier, was, p);
      var first := ArrivalOf(old_, new_, players[0]);
      NickChangesAreExact(old_, new_, players[1..], was, p);
      assert players == [players[0]] + players[1..];
      assert note in Arrivals(old_, new_, players) <==> note in first || note in Arrivals(old_, new_, players[1..]);
      FoundIsFirst(old_, players[0].uniqueIdentifier, was);
    }
  }

  lemma {:induction false} EndHasThePair(games: seq<GameInfo>, servers: nat, prev: seq<GameInfo>, at: nat, n: Note)
    requires servers <= |games| && OnlyAt(prev, |prev|, at) && Concerns(prev[at].info.uniqueIdentifier, n)
    requires FindGame(games, servers, prev[at].info.uniqueIdentifier) < servers
    ensures n in EndNotes(games, servers, prev) <==>
      n in PlayerNotes(prev[at], games[FindGame(games, servers, prev[at].info.uniqueIdentifier)])
    decreases |prev|
  {
    var game := prev[at].info.uniqueIdentifier;
    var first, rest := OldGameNotes(games, servers, prev[0]), EndNotes(games, servers, prev[1..]);
    assert n in EndNotes(games, servers, prev) <==> n in first || n in rest;
    if at == 0 {
      if n in rest {
        EndConcerns(game, games, servers, prev[1..], n);
      }
    } else {
      if n in first {
        OldGameConcerns(game, games, servers, prev[0], n);
      }
      EndHasThePair(games, servers, prev[1..], at - 1, n);
    }
  }

  /** One scan: the nick changes that it announces for a game name exactly the players of both tables whose names
      differ; of old players that share an identifier, the first counts. */
  lemma NickChangesReplay(lib: Library, t: Table, trace: seq<Record>, game: nat, was: PlayerInfo, p: PlayerInfo)
    requires GoodTable(t) && OneGame(t, game) && OneGame(RunScan(lib, t, trace), game)
    ensures var r := RunScan(lib, t, trace);
      && t.notes <= r.notes
      && (NickChanged(game, was, p) in r.notes[|t.notes|..] <==>
          && p in PlayersOf(r, game) && IsFirst(PlayersOf(t, game), was)
          && was.uniqueIdentifier == p.uniqueIdentifier && was.ingameName != p.ingameName)
  {
    var r, prev, note := RunScan(lib, t, trace), t.games[..t.servers], NickChanged(game, was, p);
    var at, now := FindGame(t.games, t.servers, game), FindGame(r.games, r.servers, game);
    var meanwhile := LogOfAScan(lib, t, trace);
    assert note !in meanwhile;
    assert note in r.notes[|t.notes|..] <==> note in EndNotes(r.games, r.servers, prev);
    OnlyAtInTable(t, game);
    EndHasThePair(r.games, r.servers, prev, at, note);
    QuitsAreOfTheGame(CountedPlayers(prev[at]), r.games[now]);
    NickChangesAreExact(prev[at], r.games[now], PlayersOf(r, game), was, p);
  }

  // ---------------------------------------------------------------- exactly what is announced

  lemma {:induction false} QuitsAreExact(players: seq<PlayerInfo>, new_: GameInfo, p: PlayerInfo)
    ensures PlayerQuit(new_.info.uniqueIdentifier, p) in Quits(players, new_) <==>
      p in players && p.uniqueIdentifier !in PlayerIds(CountedPlayers(new_))
    decreases |players|
  {
    if players != [] {
      FindPlayerMisses(new_, players[0].uniqueIdentifier);
      QuitsAreExact(players[1..], new_, p);
      assert players == [players[0]] + players[1..];
    }
  }

  lemma {:induction false} JoinsAreExact(old_: GameInfo, new_: GameInfo, players: seq<PlayerInfo>, p: PlayerInfo)
    ensures PlayerJoined(new_.info.uniqueIdentifier, p) in Arrivals(old_, new_, players) <==>
      p in players && p.uniqueIdentifier !in PlayerIds(CountedPlayers(old_))
    decreases |players|
  {
    if players != [] {
      var note := PlayerJoined(new_.info.uniqueIdentifier, p);
      FindPlayerMisses(old_, players[0].uniqueIdentifier);
      JoinsAreExact(old_, new_, players[1..], p);
      assert players == [players[0]] + players[1..];
      assert note in Arrivals(old_, new_, players) <==>
        note in ArrivalOf(old_, new_, players[0]) || note in Arrivals(old_, new_, players[1..]);
    }
  }

  lemma {:induction false} NobodyQuitsByArriving(old_: GameInfo, new_: GameInfo, players: seq<PlayerInfo>)
    ensures forall n :: n in Arrivals(old_, new_, players) ==> !n.PlayerQuit?
    decreases |players|
  {
    if players != [] {
      NobodyQuitsByArriving(old_, new_, players[1..]);
    }
  }

  /** One scan: who left a game and who joined it, exactly, each with all that is known of the player. */
  lemma QuitsAndJoinsReplay(lib: Library, t: Table, trace: seq<Record>, game: nat, p: PlayerInfo)
    requires GoodTable(t) && OneGame(t, game) && OneGame(RunScan(lib, t, trace), game)
    ensures var r := RunScan(lib, t, trace);
      && t.notes <= r.notes
      && (PlayerQuit(game, p) in r.notes[|t.notes|..] <==>
          p in PlayersOf(t, game) && p.uniqueIdentifier !in PlayerIds(PlayersOf(r, game)))
      && (PlayerJoined(game, p) in r.notes[|t.notes|..] <==>
          p in PlayersOf(r, game) && p.uniqueIdentifier !in PlayerIds(PlayersOf(t, game)))
  {
    var r, prev := RunScan(lib, t, trace), t.games[..t.servers];
    var at, now := FindGame(t.games, t.servers, game), FindGame(r.games, r.servers, game);
    var quit, join := PlayerQuit(game, p), PlayerJoined(game, p);
    var meanwhile := LogOfAScan(lib, t, trace);
    var end := EndNotes(r.games, r.servers, prev);
    assert quit !in meanwhile && join !in meanwhile;
    assert quit in r.notes[|t.notes|..] <==> quit in end;
    assert join in r.notes[|t.notes|..] <==> join in end;
    OnlyAtInTable(t, game);
    EndHasThePair(r.games, r.servers, prev, at, quit);
    EndHasThePair(r.games, r.servers, prev, at, join);
    PairIsExact(prev[at], r.games[now], p);
  }

  lemma PairIsExact(old_: GameInfo, new_: GameInfo, p: PlayerInfo)
    ensures var game, notes := new_.info.uniqueIdentifier, PlayerNotes(old_, new_);
      && (PlayerQuit(game, p) in notes <==>
          p in CountedPlayers(old_) && p.uniqueIdentifier !in PlayerIds(CountedPlayers(new_)))
      && (PlayerJoined(game, p) in notes <==>
          p in CountedPlayers(new_) && p.uniqueIdentifier !in PlayerIds(CountedPlayers(old_)))
  {
    QuitsAreExact(CountedPlayers(old_), new_, p);
    JoinsAreExact(old_, new_, CountedPlayers(new_), p);
    QuitsAreOfTheGame(CountedPlayers(old_), new_);
    NobodyQuitsByArriving(old_, new_, CountedPlayers(new_));
  }

  /** Of one game, all who left are announced before anybody who joined or changed the name: after one of these nobody
      is announced as gone. */
  lemma QuitsComeFirst(old_: GameInfo, new_: GameInfo, i: nat, j: nat)
    requires i < j < |PlayerNotes(old_, new_)| && !PlayerNotes(old_, new_)[i].PlayerQuit?
    ensures !PlayerNotes(old_, new_)[j].PlayerQuit?
  {
    var quits, arrivals := Quits(CountedPlayers(old_), new_), Arrivals(old_, new_, CountedPlayers(new_));
    QuitsAreOfTheGame(CountedPlayers(old_), new_);
    NobodyQuitsByArriving(old_, new_, CountedPlayers(new_));
    assert forall k :: 0 <= k < |quits| ==> quits[k].PlayerQuit?;
    assert forall k :: 0 <= k < |arrivals| ==> !arrivals[k].PlayerQuit?;
    OneKindFirst(quits, arrivals, i, j);
  }

  lemma OneKindFirst(a: seq<Note>, b: seq<Note>, i: nat, j: nat)
    requires i < j < |a + b| && !(a + b)[i].PlayerQuit?
    requires forall k :: 0 <= k < |a| ==> a[k].PlayerQuit?
    requires forall k :: 0 <= k < |b| ==> !b[k].PlayerQuit?
    ensures !(a + b)[j].PlayerQuit?
  {
  }

  /** And the previous games are gone through in order. */
  lemma {:induction false} GamesComeInOrder(games: seq<GameInfo>, servers: nat, a: seq<GameInfo>, b: seq<GameInfo>)
    requires servers <= |games|
    ensures EndNotes(games, servers, a + b) == EndNotes(games, servers, a) + EndNotes(games, servers, b)
    decreases |a|
  {
    if a == [] {
      assert a + b == b;
    } else {
      assert (a + b)[1..] == a[1..] + b;
      GamesComeInOrder(games, servers, a[1..], b);
    }
  }

  lemma {:induction false} EndHasTheQuit(games: seq<GameInfo>, servers: nat, prev: seq<GameInfo>, id: nat)
    requires servers <= |games|
    ensures GameQuit(id) in EndNotes(games, servers, prev) <==> id in IdsOf(prev) && id !in IdsOf(games[..servers])
    decreases |prev|
  {
    if prev != [] {
      var first, i := OldGameNotes(games, servers, prev[0]), FindGame(games, servers, prev[0].info.uniqueIdentifier);
      FindGameMisses(games, servers, prev[0].info.uniqueIdentifier);
      EndHasTheQuit(games, servers, prev[1..], id);
      IdsOfFirst(prev);
      if i < servers {
        QuitsAreOfTheGame(CountedPlayers(prev[0]), games[i]);
        ArrivalsAreOfTheGame(prev[0], games[i], CountedPlayers(games[i]));
        assert GameQuit(id) !in first;
      }
      assert GameQuit(id) in EndNotes(games, servers, prev) <==>
        GameQuit(id) in first || GameQuit(id) in EndNotes(games, servers, prev[1..]);
    }
  }

  lemma {:induction false} NoNewGamesAtTheEnd(games: seq<GameInfo>, servers: nat, prev: seq<GameInfo>, id: nat)
    requires servers <= |games|
    ensures GameNew(id) !in EndNotes(games, servers, prev)
    decreases |prev|
  {
    if prev != [] {
      var i := FindGame(games, servers, prev[0].info.uniqueIdentifier);
      NoNewGamesAtTheEnd(games, servers, prev[1..], id);
      if i < servers {
        QuitsAreOfTheGame(CountedPlayers(prev[0]), games[i]);
        ArrivalsAreOfTheGame(prev[0], games[i], CountedPlayers(games[i]));
      }
    }
  }

  /** Only games with an identifier that is new are announced while a scan runs. */
  lemma {:induction false} NewGamesAreNew(lib: Library, t: Table, trace: seq<Record>, i: nat)
    requires GoodTable(t) && |t.notes| <= i < |ConsumeAll(lib, t, trace).table.notes|
    ensures ConsumeAll(lib, t, trace).table.notes[i].GameNew?
    ensures var id := ConsumeAll(lib, t, trace).table.notes[i].id; id != 0 && id !in PrevIds(t)
    decreases |trace|
  {
    if trace != [] {
      var a := Consume(lib, t, trace[0], true);
      var id := a.table.games[a.table.game].info.uniqueIdentifier;
      FindGameMisses(t.prev, t.prevCount, id);
      if !a.stop {
        OnlyNewGamesMeanwhile(lib, a.table, trace[1..]);
        if i >= |a.table.notes| {
          NewGamesAreNew(lib, a.table, trace[1..], i);
        }
      }
    }
  }

  lemma {:induction false} ListenToNew(ids: set<nat>, notes: seq<Note>, id: nat)
    requires forall i :: 0 <= i < |notes| ==> notes[i].GameNew?
    ensures id in Listen(ids, notes) <==> id in ids || GameNew(id) in notes
    decreases |notes|
  {
    if notes != [] {
      ListenToNew(Hear(ids, notes[0]), notes[1..], id);
      assert notes == [notes[0]] + notes[1..];
    }
  }

  /** One scan: the games that are announced as new are exactly those shown under an identifier that was not in the
      table, and those announced as gone exactly those no longer in it. */
  lemma GamesReplay(lib: Library, t: Table, trace: seq<Record>, id: nat)
    requires GoodTable(t) && Ordered(trace)
    ensures var r, c := RunScan(lib, t, trace), ConsumeAll(lib, Begin(t), trace).table;
      && t.notes <= r.notes && RowsOpened(c)
      && (GameNew(id) in r.notes[|t.notes|..] <==> id in ShownIds(c) && id !in TableIds(t))
      && (GameQuit(id) in r.notes[|t.notes|..] <==> id in TableIds(t) && id !in TableIds(r))
  {
    var r, prev, c := RunScan(lib, t, trace), t.games[..t.servers], ConsumeAll(lib, Begin(t), trace).table;
    DuringTheScan(lib, t, trace);
    var meanwhile, end := c.notes[|t.notes|..], EndNotes(c.games, c.servers, prev);
    assert r.notes[|t.notes|..] == meanwhile + end;
    forall i | 0 <= i < |meanwhile|
      ensures meanwhile[i].GameNew? && meanwhile[i].id != 0 && meanwhile[i].id !in TableIds(t)
    {
      NewGamesAreNew(lib, Begin(t), trace, |t.notes| + i);
    }
    ListenToNew(TableIds(t), meanwhile, id);
    NoNewGamesAtTheEnd(c.games, c.servers, prev, id);
    EndHasTheQuit(c.games, c.servers, prev, id);
  }

  // ---------------------------------------------------------------- nothing to announce

  /** The name of the first player with the identifier. */
  function FirstName(players: seq<PlayerInfo>, id: nat): Option<string> {
    if players == [] then None
    else if players[0].uniqueIdentifier == id then Some(players[0].ingameName)
    else FirstName(players[1..], id)
  }

  lemma {:induction false} FirstNameIsFound(players: seq<PlayerInfo>, id: nat, i: nat)
    requires i <= |players| && (i < |players| ==> players[i].uniqueIdentifier == id)
    requires forall j :: 0 <= j < i ==> players[j].uniqueIdentifier != id
    ensures FirstName(players, id) == if i < |players| then Some(players[i].ingameName) else None
    decreases |players|
  {
    if players != [] && i > 0 {
      FirstNameIsFound(players[1..], id, i - 1);
    }
  }

  /** Everybody is still there, and everybody now there was there under the same name. */
  predicate SamePlayers(was: seq<PlayerInfo>, now: seq<PlayerInfo>) {
    PlayerIds(was) <= PlayerIds(now) && forall i :: 0 <= i < |now| ==> WasThere(was, now[i])
  }

  predicate WasThere(was: seq<PlayerInfo>, p: PlayerInfo) {
    FirstName(was, p.uniqueIdentifier) == Some(p.ingameName)
  }

  /** The game is in the table, with the same players. */
  predicate IsUnchanged(games: seq<GameInfo>, servers: nat, old_: GameInfo)
    requires servers <= |games|
  {
    var i := FindGame(games, servers, old_.info.uniqueIdentifier);
    i < servers && SamePlayers(CountedPlayers(old_), CountedPlayers(games[i]))
  }

  lemma {:induction false} NobodyQuits(players: seq<PlayerInfo>, new_: GameInfo)
    ensures Quits(players, new_) == [] <==> PlayerIds(players) <= PlayerIds(CountedPlayers(new_))
    decreases |players|
  {
    if players != [] {
      FindPlayerMisses(new_, players[0].uniqueIdentifier);
      NobodyQuits(players[1..], new_);
      PlayerIdsFirst(players);
    }
  }

  lemma OneIsNotAnnounced(old_: GameInfo, new_: GameInfo, p: PlayerInfo)
    ensures ArrivalOf(old_, new_, p) == [] <==> WasThere(CountedPlayers(old_), p)
  {
    FirstNameIsFound(CountedPlayers(old_), p.uniqueIdentifier, FindPlayer(old_, p.uniqueIdentifier));
  }

  lemma {:induction false} NobodyArrives(old_: GameInfo, new_: GameInfo, players: seq<PlayerInfo>)
    ensures Arrivals(old_, new_, players) == [] <==>
      forall i :: 0 <= i < |players| ==> WasThere(CountedPlayers(old_), players[i])
    decreases |players|
  {
    if players != [] {
      var rest := players[1..];
      OneIsNotAnnounced(old_, new_, players[0]);
      NobodyArrives(old_, new_, rest);
      assert forall i :: 0 <= i < |rest| ==> rest[i] == players[i + 1];
      assert forall i :: 0 < i < |players| ==> players[i] == rest[i - 1];
    }
  }

  lemma OldGameIsSilent(games: seq<GameInfo>, servers: nat, old_: GameInfo)
    requires servers <= |games|
    ensures OldGameNotes(games, servers, old_) == [] <==> IsUnchanged(games, servers, old_)
  {
    var i := FindGame(games, servers, old_.info.uniqueIdentifier);
    if i < servers {
      NobodyQuits(CountedPlayers(old_), games[i]);
      NobodyArrives(old_, games[i], CountedPlayers(games[i]));
    }
  }

  /** The end of a scan announces nothing if and only if every previous game is in the table with the same players. */
  lemma {:induction false} NothingIsAnnouncedIff(games: seq<GameInfo>, servers: nat, prev: seq<GameInfo>)
    requires servers <= |games|
    ensures EndNotes(games, servers, prev) == [] <==>
      forall i :: 0 <= i < |prev| ==> IsUnchanged(games, servers, prev[i])
    decreases |prev|
  {
    if prev != [] {
      var rest := prev[1..];
      OldGameIsSilent(games, servers, prev[0]);
      NothingIsAnnouncedIff(games, servers, rest);
      assert forall i :: 0 <= i < |rest| ==> rest[i] == prev[i + 1];
      assert forall i :: 0 < i < |prev| ==> prev[i] == rest[i - 1];
    }
  }
}
