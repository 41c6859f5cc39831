/** The hash that identifies players and games, over the characters of a C string. */
module Identity {
  import opened Crc32

  function ByteOf(c: char): bv8 { (c as int % 256) as bv8 }

  function Terminated(s: string): (r: seq<bv8>)
    ensures 0 in r
  {
    var r := seq(|s|, i requires 0 <= i < |s| => ByteOf(s[i])) + [0];
    assert r[|s|] == 0;
    r
  }

  function Identify(s: string): nat { Crc(UpToZero(Terminated(s), 0)) as nat }

  method Hash(s: string) returns (id: nat)
    ensures id == Identify(s)
  {
    var crc := CalcCRC32A(Terminated(s));
    id := crc as nat;
  }
}

/** `ProcessSessionInfo` and the start of `ScanThread` (bzccscanner.c), on the arrays they fill. */
module SessionScan {
  import opened Common
  import opened CStrings
  import opened ParserSpec
  import opened ModList
  import opened SessionTable
  import opened Notifications
  import Identity

  /** How the scanner reads fields. Base-64 decoding is a library's. */
  function Scanner(decode: string -> string): Decoders {
    Decoders(decode, (s: string) => Identity.Identify(s), (s: string) => Atoi(s),
             (key: string) => KeyIdentifier(key, PLAYER_KEY_TO_ID),
             (key: string) => KeyIdentifier(key, SERVER_KEY_TO_ID))
  }

  /** The part of `WindowControls` that a scan works on. `scanGame` and `scanPlayer` are indices, `gameRows` the rows of
      the game list, oldest first, and `notes` a log of the notifications. */
  class ScanControls {
    const gameinfo: array<GameInfo>
    const gameinfoPrev: array<GameInfo>
    const decode: string -> string
    var gameinfoPrevCount: nat
    var scanCountServers: nat
    var scanCountPlayers: nat
    var scanGame: nat
    var scanPlayer: nat
    var gameRows: seq<nat>
    var notes: seq<Note>

    ghost function Abs(): Table
      reads this, gameinfo, gameinfoPrev
    {
      Table(gameinfo[..], gameinfoPrev[..], gameinfoPrevCount, scanCountServers, scanGame, scanCountPlayers, scanPlayer,
            gameRows, notes)
    }

    ghost predicate Valid()
      reads this, gameinfo, gameinfoPrev
    {
      gameinfo != gameinfoPrev && GoodTable(Abs())
    }

    constructor (decode: string -> string)
      ensures Valid() && fresh(gameinfo) && fresh(gameinfoPrev) && this.decode == decode
      ensures Abs() == Table(seq(MAX_SERVERS, _ => NoGame()), seq(MAX_SERVERS, _ => NoGame()), 0, 0, 0, 0, 0, [], [])
    {
      this.decode := decode;
      gameinfo := new GameInfo[MAX_SERVERS](_ => NoGame());
      gameinfoPrev := new GameInfo[MAX_SERVERS](_ => NoGame());
      gameinfoPrevCount, scanCountServers, scanCountPlayers, scanGame, scanPlayer := 0, 0, 0, 0, 0;
      gameRows, notes := [], [];
    }

    /** `ListView_DeleteAllItems`. */
    method ClearRows()
      requires Valid()
      modifies this`gameRows
      ensures Valid() && Abs() == old(Abs()).(rows := [])
    {
      gameRows := [];
    }

    /** Clears the game list and moves the games over. */
    method StartScan()
      requires Valid()
      modifies this, gameinfoPrev
      ensures Valid() && Abs() == Begin(old(Abs()))
    {
      gameRows := [];
      var i := 0;
      while i < MAX_SERVERS
        invariant i <= MAX_SERVERS && gameinfoPrev[..i] == gameinfo[..i]
        invariant gameinfo[..] == old(gameinfo[..]) && gameRows == [] && unchanged(this`gameinfoPrevCount)
        invariant unchanged(this`scanCountServers) && unchanged(this`scanGame) && unchanged(this`scanPlayer)
        invariant unchanged(this`notes)
      {
        gameinfoPrev[i] := gameinfo[i];
        i := i + 1;
      }
      assert gameinfoPrev[..] == gameinfo[..];
      gameinfoPrevCount := scanCountServers;
      scanCountServers, scanCountPlayers := 0, 0;
    }

    // -------------------------------------------------------------- fields

    method PlayerField(p: PlayerInfo, key: string, value: string) returns (q: PlayerInfo)
      ensures q == SetPlayerField(Scanner(decode), p, key, value)
    {
      q := p;
      var id := GetKeyIdentifier(key, PLAYER_KEY_TO_ID);
      if id == PLAYERKEY_NAME {
        q := q.(ingameName := decode(value));
      } else if id == PLAYERKEY_USERID {
        q := q.(userId := Clip(value, USER_ID_LEN));
        var hash := Identity.Hash(value);
        q := q.(uniqueIdentifier := hash);
      } else if id == PLAYERKEY_TEAM {
        q := q.(team := Atoi(value));
      } else if id == PLAYERKEY_KILLS {
        q := q.(kills := Atoi(value));
      }
    }

    method ModIds(ids: ModSlots, value: string) returns (r: ModSlots)
      requires NUL !in value
      ensures r == SplitRaw(value, ids).ids
    {
      var modId := new nat[MAX_MODS](i requires 0 <= i < MAX_MODS => ids[i]);
      assert modId[..] == ids;
      var code := SplitRawModIds(value, modId);
      r := modId[..];
    }

    method ServerField(g: ServerInfo, key: string, value: string) returns (r: ServerInfo)
      requires NUL !in value
      ensures r == SetServerField(Scanner(decode), g, key, value)
    {
      r := g;
      var id := GetKeyIdentifier(key, SERVER_KEY_TO_ID);
      if id == SERVERKEY_NAME {
        r := r.(name := decode(value));
      } else if id == SERVERKEY_MAP {
        r := r.(map_ := Clip(value + ".bzn", SERVER_MAP_LEN));
      } else if id == SERVERKEY_VERSION {
        r := r.(version := Clip(value, SERVER_VER_LEN));
      } else if id == SERVERKEY_HOSTMSG {
        r := r.(msg := Clip(value, SERVER_HOSTMSG_LEN));
      } else if id == SERVERKEY_MODSTRING {
        var ids := ModIds(r.modId, value);
        r := r.(modId := ids);
      } else if id == SERVERKEY_PLAYERLIMIT {
        r := r.(playerlimit := Atoi(value));
      } else if id == SERVERKEY_TPS {
        r := r.(tps := Atoi(value));
      } else if id == SERVERKEY_PWD {
        r := r.(pwd := true);
      } else if id == SERVERKEY_MAX_PING {
        r := r.(maxPing := Atoi(value));
      } else if id == SERVERKEY_PING {
        r := r.(serverPing := Atoi(value));
      } else if id == SERVERKEY_GAMETIME {
        r := r.(gametime := Atoi(value));
      } else if id == SERVERKEY_GAMETYPE {
        r := r.(gametype := Atoi(value));
      } else if id == SERVERKEY_TIMELIMIT {
        r := r.(timelimit := Atoi(value));
      } else if id == SERVERKEY_KILLLIMIT {
        r := r.(killlimit := Atoi(value));
      } else if id == SERVERKEY_G {
        var hash := Identity.Hash(value);
        r := r.(uniqueIdentifier := hash);
      }
    }

    // -------------------------------------------------------------- lookups

    method LookUpGame(games: array<GameInfo>, count: nat, id: nat) returns (i: nat)
      requires count <= games.Length
      ensures i == FindGame(games[..], count, id)
    {
      i := 0;
      while i < count
        invariant i <= count
        invariant forall j :: 0 <= j < i ==> games[j].info.uniqueIdentifier != id
      {
        if games[i].info.uniqueIdentifier == id {
          return;
        }
        i := i + 1;
      }
    }

    method LookUpPlayer(g: GameInfo, id: nat) returns (i: nat)
      ensures i == FindPlayer(g, id)
    {
      i := 0;
      while i < Counted(g)
        invariant i <= Counted(g)
        invariant forall j :: 0 <= j < i ==> g.playerinfo[j].uniqueIdentifier != id
      {
        if g.playerinfo[i].uniqueIdentifier == id {
          return;
        }
        i := i + 1;
      }
    }

    // -------------------------------------------------------------- a data callback

    method OpenNewServer(server: nat)
      requires Valid() && server == scanCountServers < MAX_SERVERS
      modifies this, gameinfo
      ensures Valid() && Abs() == OpenServer(old(Abs()), server)
    {
      scanCountServers := scanCountServers + 1;
      scanCountPlayers := 0;
      scanGame := server;
      gameinfo[scanGame] := NoGame();
    }

    method OpenNewPlayer(player: nat)
      requires Valid() && player == scanCountPlayers < MAX_PLAYERS
      modifies this, gameinfo
      ensures Valid() && Abs() == OpenPlayer(old(Abs()), player)
    {
      scanCountPlayers := scanCountPlayers + 1;
      scanPlayer := player;
      gameinfo[scanGame] := WithPlayer(gameinfo[scanGame], scanPlayer, NO_PLAYER);
    }

    method StorePlayer(r: Record)
      requires Valid()
      modifies gameinfo
      ensures Valid() && Abs() == StorePlayerField(Standard(Scanner(decode)), old(Abs()), r)
    {
      var g := gameinfo[scanGame];
      var p := PlayerField(g.playerinfo[scanPlayer], r.key, r.value);
      g := WithPlayer(g, scanPlayer, p);
      if r.status == Last {
        g := g.(playerCount := g.playerCount + 1);
      }
      gameinfo[scanGame] := g;
    }

    /** Names the mod, shows the row, and announces the game if it is new. */
    method FlushServer()
      requires Valid()
      modifies this, gameinfo
      ensures Valid() && Abs() == CloseServer(old(Abs()))
    {
      var g := gameinfo[scanGame];
      gameinfo[scanGame] := g.(modName := ModName(g.info));
      gameRows := gameRows + [scanGame];
      if g.info.uniqueIdentifier != 0 {
        var i := LookUpGame(gameinfoPrev, gameinfoPrevCount, g.info.uniqueIdentifier);
        if i == gameinfoPrevCount {
          notes := notes + [GameNew(g.info.uniqueIdentifier)];
        }
      }
      assert notes + [] == notes;
    }

    method StoreServer(r: Record)
      requires Valid() && NUL !in r.value
      modifies this, gameinfo
      ensures Valid() && Abs() == StoreServerField(Standard(Scanner(decode)), old(Abs()), r)
    {
      var g := gameinfo[scanGame];
      var info := ServerField(g.info, r.key, r.value);
      gameinfo[scanGame] := g.(info := info);
      if r.status == Last {
        FlushServer();
      }
    }

    /** `ProcessSessionInfo` on `KVI_STATUS_NORMAL` and `KVI_STATUS_LAST`. */
    method ProcessRecord(r: Record, iContinueScan: bool) returns (answer: int)
      requires Valid() && NUL !in r.value
      modifies this, gameinfo
      ensures Valid()
      ensures Answer(answer != 0, Abs()) == Consume(Standard(Scanner(decode)), old(Abs()), r, iContinueScan)
    {
      if !iContinueScan {
        return 1;
      }
      if r.server >= MAX_SERVERS || r.player >= MAX_PLAYERS {
        return 1;
      }
      if r.server >= scanCountServers {
        if r.server >= scanCountServers + 1 {
          return 1;
        }
        OpenNewServer(r.server);
      }
      if r.isPlayer {
        if r.player >= scanCountPlayers {
          if r.player >= scanCountPlayers + 1 {
            return 1;
          }
          OpenNewPlayer(r.player);
        }
        StorePlayer(r);
      } else {
        StoreServer(r);
      }
      return 0;
    }

    // -------------------------------------------------------------- the terminal callback

    method NotifyQuits(oldGame: GameInfo, newGame: GameInfo)
      modifies this`notes
      ensures notes == old(notes) + Quits(CountedPlayers(oldGame), newGame)
    {
      var players := CountedPlayers(oldGame);
      ghost var goal := notes + Quits(players, newGame);
      var ip := 0;
      assert players[0..] == players;
      while ip < |players|
        invariant ip <= |players| && goal == notes + Quits(players[ip..], newGame)
      {
        ghost var rest := players[ip..];
        assert rest[0] == players[ip] && rest[1..] == players[ip + 1..];
        var i := LookUpPlayer(newGame, players[ip].uniqueIdentifier);
        if i == Counted(newGame) {
          notes := notes + [PlayerQuit(newGame.info.uniqueIdentifier, players[ip])];
        }
        ip := ip + 1;
      }
    }

    method NotifyArrival(oldGame: GameInfo, newGame: GameInfo, player: PlayerInfo)
      modifies this`notes
      ensures notes == old(notes) + ArrivalOf(oldGame, newGame, player)
    {
      var i := LookUpPlayer(oldGame, player.uniqueIdentifier);
      if i < Counted(oldGame) {
        if oldGame.playerinfo[i].ingameName != player.ingameName {
          notes := notes + [NickChanged(newGame.info.uniqueIdentifier, oldGame.playerinfo[i], player)];
        }
      } else {
        notes := notes + [PlayerJoined(newGame.info.uniqueIdentifier, player)];
      }
    }

    lemma NextArrival(notes: seq<Note>, oldGame: GameInfo, newGame: GameInfo, players: seq<PlayerInfo>, ip: nat)
      requires ip < |players|
      ensures notes + Arrivals(oldGame, newGame, players[ip..]) ==
        notes + ArrivalOf(oldGame, newGame, players[ip]) + Arrivals(oldGame, newGame, players[ip + 1..])
    {
      assert players[ip..][0] == players[ip] && players[ip..][1..] == players[ip + 1..];
    }

    method NotifyArrivals(oldGame: GameInfo, newGame: GameInfo)
      modifies this`notes
      ensures notes == old(notes) + Arrivals(oldGame, newGame, CountedPlayers(newGame))
    {
      var players := CountedPlayers(newGame);
      ghost var goal := notes + Arrivals(oldGame, newGame, players);
      var ip := 0;
      assert players[0..] == players;
      while ip < |players|
        invariant ip <= |players| && goal == notes + Arrivals(oldGame, newGame, players[ip..])
      {
        NextArrival(notes, oldGame, newGame, players, ip);
        NotifyArrival(oldGame, newGame, players[ip]);
        ip := ip + 1;
      }
    }

    method NotifyOldGame(oldGame: GameInfo)
      requires Valid()
      modifies this`notes
      ensures notes == old(notes) + OldGameNotes(gameinfo[..], scanCountServers, oldGame)
    {
      var i := LookUpGame(gameinfo, scanCountServers, oldGame.info.uniqueIdentifier);
      if i == scanCountServers {
        notes := notes + [GameQuit(oldGame.info.uniqueIdentifier)];
      } else {
        NotifyQuits(oldGame, gameinfo[i]);
        NotifyArrivals(oldGame, gameinfo[i]);
      }
    }

    lemma NextOldGame(notes: seq<Note>, games: seq<GameInfo>, servers: nat, prev: seq<GameInfo>)
      requires servers <= |games| && prev != []
      ensures notes + EndNotes(games, servers, prev) ==
        notes + OldGameNotes(games, servers, prev[0]) + EndNotes(games, servers, prev[1..])
    {
    }

    /** `ProcessSessionInfo` on `KVI_STATUS_COMPLETE` and `KVI_STATUS_ERROR`, up to `EndScan`. */
    method ProcessEnd()
      requires Valid()
      modifies this`notes
      ensures Valid() && Abs() == Finish(old(Abs()))
    {
      ghost var prev := gameinfoPrev[..gameinfoPrevCount];
      ghost var goal := notes + EndNotes(gameinfo[..], scanCountServers, prev);
      var ig := 0;
      assert prev[0..] == prev;
      while ig < gameinfoPrevCount
        invariant ig <= gameinfoPrevCount && goal == notes + EndNotes(gameinfo[..], scanCountServers, prev[ig..])
      {
        assert prev[ig..][0] == gameinfoPrev[ig] && prev[ig..][1..] == prev[ig + 1..];
        NextOldGame(notes, gameinfo[..], scanCountServers, prev[ig..]);
        NotifyOldGame(gameinfoPrev[ig]);
        ig := ig + 1;
      }
    }
  }
}
