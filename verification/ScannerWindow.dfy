/** The handlers that begin, stop and end scans (bzccscanner.c), on the fields they update. */
module ScannerWindow {
  import opened Common
  import opened CStrings
  import opened ParserSpec
  import opened SessionTable
  import opened SessionScan
  import L = Lifecycle

  const IDT_REFRESH := 1
  const MIN_SCAN_DELAY := 1

  function Handle(h: int): Option<nat> { if h < 0 then None else Some(h) }

  /** The part of `WindowControls` that decides when to scan. Handles and selections are indices, or -1 for NULL; what
      `CreateThread` returns is the number of threads created before. `timerId` is what `SetTimer` returned, or 0. */
  class WindowControls {
    const scan: ScanControls
    var hScan: int
    var threadsCreated: nat
    var iContinueScan: bool
    var quitting: bool
    var closed: bool
    var autoScan: bool
    var autoScanDelay: nat
    var autoScanRequestWhileBusy: bool
    var timerId: nat
    var selectedGame: int
    var selectedPlayer: int
    var hInDlg: bool
    var renamedGame: nat
    var renamedPlayer: nat
    ghost var threads: seq<L.Thread>
    ghost var renamedWas: PlayerInfo

    ghost function Abs(): L.Window
      reads this, scan, scan.gameinfo, scan.gameinfoPrev
    {
      L.Window(scan.Abs(), threads, Handle(hScan), iContinueScan, quitting, closed, autoScan, timerId != 0,
               autoScanRequestWhileBusy, Handle(selectedGame), Handle(selectedPlayer),
               if hInDlg then L.Renaming(renamedGame, renamedPlayer, renamedWas) else L.NoDialog)
    }

    ghost predicate Valid()
      reads this, scan, scan.gameinfo, scan.gameinfoPrev
    {
      scan.Valid() && threadsCreated == |threads|
    }

    /** The window when its message loop starts. */
    constructor (decode: string -> string, autoScan: bool, autoScanDelay: nat, ghost stream: L.Stream)
      ensures Valid() && fresh(scan) && fresh(scan.gameinfo) && fresh(scan.gameinfoPrev)
      ensures Abs() == L.Initially(autoScan, stream)
    {
      scan := new ScanControls(decode);
      hScan, threadsCreated, iContinueScan, quitting, closed := -1, 0, false, false, false;
      this.autoScan, this.autoScanDelay, autoScanRequestWhileBusy, timerId := autoScan, autoScanDelay, false, 0;
      selectedGame, selectedPlayer, hInDlg, renamedGame, renamedPlayer := -1, -1, false, 0, 0;
      threads, renamedWas := [], NO_PLAYER;
      new;
      if autoScan {
        Refresh(stream);
      }
    }

    // -------------------------------------------------------------- scans

    method CreateThread(ghost trace: seq<Record>)
      requires Valid()
      modifies this`hScan, this`threadsCreated, this`threads
      ensures Valid()
      ensures Abs() == old(Abs()).(threads := old(threads) + [L.Starting(trace)], hScan := Some(|old(threads)|))
    {
      hScan := threadsCreated;
      threadsCreated := threadsCreated + 1;
      threads := threads + [L.Starting(trace)];
    }

    /** `BeginScan`. The new thread is at its first instruction. */
    method BeginScan(ghost trace: seq<Record>)
      requires Valid()
      modifies this, scan`gameRows
      ensures Valid() && Abs() == L.BeginScan(old(Abs()), trace)
    {
      scan.ClearRows();
      if timerId != 0 {
        timerId := 0;
      }
      iContinueScan, selectedGame, selectedPlayer := true, -1, -1;
      CreateThread(trace);
    }

    /** `WM_APP_REFRESH`. */
    method Refresh(ghost stream: L.Stream)
      requires Valid()
      modifies this, scan
      ensures Valid() && Abs() == L.OnRefresh(old(Abs()), stream)
    {
      if hInDlg {
        return;
      }
      if hScan >= 0 {
        if iContinueScan {
          iContinueScan := false;
        }
        return;
      }
      BeginScan(L.TraceOf(stream));
    }

    /** `ScanThread`, up to the first read. */
    method ThreadStarts(i: nat)
      requires Valid() && i < |threads| && threads[i].Starting?
      modifies this`threads, scan, scan.gameinfoPrev
      ensures Valid() && Abs() == L.OnThreadStarts(old(Abs()), i)
    {
      scan.StartScan();
      threads := threads[i := L.Feeding(threads[i].trace, 0, false)];
    }

    /** The next data callback of thread `i`, which has not been told to stop. */
    method Data(i: nat, r: Record) returns (answer: int)
      requires Valid() && i < |threads| && threads[i].Feeding? && !threads[i].stopped
      requires threads[i].k < |threads[i].trace| && r == threads[i].trace[threads[i].k] && NUL !in r.value
      modifies this`threads, scan, scan.gameinfo
      ensures Valid() && Abs() == L.OnCallback(Standard(Scanner(scan.decode)), old(Abs()), i)
      ensures answer != 0 <==> threads[i].Feeding? && threads[i].stopped
    {
      answer := scan.ProcessRecord(r, iContinueScan);
      threads := threads[i := threads[i].(k := threads[i].k + 1, stopped := answer != 0)];
    }

    /** The terminal callback of thread `i`, until `EndScan` has released the handle. */
    method LastData(i: nat)
      requires Valid() && i < |threads| && threads[i].Feeding?
      modifies this`threads, this`hScan, scan`notes
      ensures Valid() && Abs() == L.OnLastCallback(old(Abs()), i)
    {
      scan.ProcessEnd();
      if hScan >= 0 {
        hScan := -1;
      }
      threads := threads[i := L.Ending];
    }

    /** The rest of `EndScan`. */
    method EndScan(i: nat)
      requires Valid() && i < |threads| && threads[i].Ending?
      modifies this
      ensures Valid() && Abs() == L.OnThreadEnds(old(Abs()), i)
    {
      threads := threads[i := L.Gone];
      if quitting {
        WmClose();
        return;
      }
      if autoScan {
        timerId := IDT_REFRESH;
      }
    }

    // -------------------------------------------------------------- the timer

    method WmTimer(ghost stream: L.Stream)
      requires Valid()
      modifies this, scan
      ensures Valid() && Abs() == L.OnTimer(old(Abs()), stream)
    {
      if hInDlg {
        autoScanRequestWhileBusy := true;
        timerId := 0;
      } else {
        Refresh(stream);
      }
    }

    method ToggleAutoScan()
      requires Valid()
      modifies this`autoScan, this`timerId
      ensures Valid() && Abs() == L.OnToggleAutoScan(old(Abs()))
    {
      autoScan := !autoScan;
      if autoScan {
        timerId := IDT_REFRESH;
      } else if timerId != 0 {
        timerId := 0;
      }
    }

    method ApplyDelay(delay: nat)
      requires Valid()
      modifies this`autoScanDelay, this`timerId
      ensures Valid() && Abs() == L.OnApplyDelay(old(Abs()))
      ensures autoScanDelay == if delay < MIN_SCAN_DELAY then MIN_SCAN_DELAY else delay
    {
      autoScanDelay := delay;
      if autoScanDelay < MIN_SCAN_DELAY {
        autoScanDelay := MIN_SCAN_DELAY;
      }
      if autoScan {
        timerId := 0;
        timerId := IDT_REFRESH;
      }
    }

    // -------------------------------------------------------------- selection and renaming

    /** `LVN_ITEMCHANGED` on a row of the game list. */
    method SelectGame(game: nat)
      requires Valid() && game in scan.gameRows
      modifies this`selectedGame, this`selectedPlayer
      ensures Valid() && Abs() == L.OnSelectGame(old(Abs()), game)
    {
      if game != selectedGame {
        selectedGame := game;
        selectedPlayer := -1;
      }
    }

    /** `LBN_SELCHANGE`; `item` is negative if nothing is selected. */
    method SelectPlayer(item: int)
      requires Valid()
      modifies this`selectedPlayer
      ensures Valid()
      ensures Abs() == if item < 0 then old(Abs()).(selectedPlayer := None) else L.OnSelectPlayer(old(Abs()), item)
    {
      if item < 0 {
        selectedPlayer := -1;
      } else if selectedGame >= 0 {
        selectedPlayer := if item < MAX_PLAYERS then item else -1;
      }
    }

    /** `WM_APP_RENAME_DLG`. */
    method OpenRename()
      requires Valid() && selectedGame < MAX_SERVERS && selectedPlayer < MAX_PLAYERS
      modifies this`hInDlg, this`renamedGame, this`renamedPlayer, this`renamedWas
      ensures Valid() && Abs() == L.OnOpenRename(old(Abs()))
    {
      if !hInDlg && selectedPlayer >= 0 && selectedGame >= 0 {
        hInDlg := true;
        renamedGame, renamedPlayer := selectedGame, selectedPlayer;
        renamedWas := scan.gameinfo[renamedGame].playerinfo[renamedPlayer];
      }
    }

    method WriteLocalName(game: nat, player: nat, nick: string)
      requires Valid() && game < MAX_SERVERS && player < MAX_PLAYERS
      modifies scan.gameinfo
      ensures Valid() && Abs() == old(Abs()).(table := L.WithLocalName(old(scan.Abs()), game, player, nick))
    {
      var g := scan.gameinfo[game];
      scan.gameinfo[game] := WithPlayer(g, player, g.playerinfo[player].(localName := nick));
    }

    /** `WM_APP_CLOSE_RENAME_DLG`; `nick` is the nickname to write, if one was submitted. */
    method CloseRename(nick: Option<string>)
      requires Valid() && renamedGame < MAX_SERVERS && renamedPlayer < MAX_PLAYERS
      modifies this`hInDlg, this`timerId, this`autoScanRequestWhileBusy, scan.gameinfo
      ensures Valid() && Abs() == L.OnCloseRename(old(Abs()), nick)
    {
      if !hInDlg {
        return;
      }
      hInDlg := false;
      if autoScanRequestWhileBusy {
        if autoScan {
          timerId := IDT_REFRESH;
        }
        autoScanRequestWhileBusy := false;
      }
      if nick.Some? {
        WriteLocalName(renamedGame, renamedPlayer, nick.value);
      }
    }

    // -------------------------------------------------------------- quitting

    /** `WM_CLOSE`. */
    method WmClose()
      requires Valid()
      modifies this`iContinueScan, this`quitting, this`closed
      ensures Valid() && Abs() == L.OnClose(old(Abs()))
    {
      if hScan >= 0 && !quitting {
        iContinueScan := false;
        quitting := true;
        return;
      }
      closed := true;
    }
  }
}
