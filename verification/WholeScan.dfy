/** A lobby document from its bytes to the table of games: printing, reading in chunks, parsing and consuming. */
module WholeScan {
  import opened CStrings
  import opened ParserSpec
  import opened ParserRuns
  import opened Document
  import opened RoundTrip
  import opened HttpFraming
  import opened SessionTable
  import opened FrozenRows
  import opened DirectReading
  import opened LobbyScan

  // ---------------------------------------------------------------- which lobbies are accepted

  predicate FieldsFit(m: Members)
    requires ScalarMembers(m)
  {
    m.Member? ==> KeyFits(m.key) && |TextOf(m.val)| < GENERIC_BUFLEN && FieldsFit(m.rest)
  }

  predicate PlayersFit(items: Items)
    requires PlayerItems(items)
  {
    items.Item? ==> FieldsFit(items.val.members) && PlayersFit(items.rest)
  }

  predicate ServerFits(m: Members)
    requires ServerMembers(m)
  {
    m.Member? ==>
      && KeyFits(m.key) && (if m.val.Arr? then PlayersFit(m.val.items) else |TextOf(m.val)| < GENERIC_BUFLEN)
      && ServerFits(m.rest)
  }

  predicate ServersFit(items: Items)
    requires ServerItems(items)
  {
    items.Item? ==> ServerFits(items.val.members) && ServersFit(items.rest)
  }

  /** No key and no value is too long for the parser's buffers, and no key holds a line break. */
  predicate LobbyFits(root: Node)
    requires Lobby(root)
  {
    KeyFits(root.members.key) && ServersFit(root.members.val.items)
  }

  lemma {:induction false} FieldsAccepted(m: Members, at: Slots)
    requires ScalarMembers(m)
    ensures WalkMembers(m, 5, at).ok <==> FieldsFit(m)
    decreases m
  {
    if m.Member? {
      FieldsAccepted(m.rest, at);
    }
  }

  lemma {:induction false} PlayersAccepted(items: Items, at: Slots)
    requires PlayerItems(items)
    ensures WalkItems(items, 4, at).ok <==> PlayersFit(items)
    decreases items
  {
    if items.Item? {
      FieldsAccepted(items.val.members, at);
      var w := Walk(items.val, "", 4, true, if items.rest.NoItem? then ']' else ',', at);
      PlayersAccepted(items.rest, w.at);
    }
  }

  lemma {:induction false} ServerAccepted(m: Members, at: Slots)
    requires ServerMembers(m)
    ensures WalkMembers(m, 3, at).ok <==> ServerFits(m)
    decreases m
  {
    if m.Member? && m.val.Arr? {
      PlayersAccepted(m.val.items, at);
      ServerAccepted(m.rest, WalkItems(m.val.items, 4, at).at);
    } else if m.Member? {
      ServerAccepted(m.rest, at);
    }
  }

  lemma {:induction false} ServersAccepted(items: Items, at: Slots)
    requires ServerItems(items)
    ensures WalkItems(items, 2, at).ok <==> ServersFit(items)
    decreases items
  {
    if items.Item? {
      ServerAccepted(items.val.members, at);
      var w := Walk(items.val, "", 2, true, if items.rest.NoItem? then ']' else ',', at);
      ServersAccepted(items.rest, w.at);
    }
  }

  /** A lobby is accepted exactly if everything in it fits. */
  lemma LobbyAccepted(root: Node)
    requires Lobby(root)
    ensures WalkDocument(root).ok <==> LobbyFits(root)
  {
    var m, at := root.members, Slots(0, 0);
    ServersAccepted(m.val.items, at);
    var w := WalkItems(m.val.items, 2, at);
    assert Walk(m.val, m.key, 1, false, '}', at) == w;
    assert WalkMembers(m.rest, 1, w.at) == Walked(true, [], w.at);
  }

  // ---------------------------------------------------------------- the consumer's answers

  /** `ProcessSessionInfo` as the parser sees it, while nobody presses Stop. */
  function Answers(lib: Library, t: Table): Consumer
    requires GoodTable(t)
  {
    (done: seq<Record>) => ConsumeAll(lib, t, done).stop
  }

  /** If no record of the whole trace is refused, the consumer does not stop the run. */
  lemma NobodyStops(lib: Library, t: Table, s: State, bytes: string)
    requires GoodTable(t) && !ConsumeAll(lib, t, RunAll(s, bytes).trace).stop
    ensures RunWith(Answers(lib, t), [], s, bytes) == RunAll(s, bytes)
  {
    var stop, trace := Answers(lib, t), RunAll(s, bytes).trace;
    forall i | 0 <= i <= |trace| ensures !stop([] + trace[..i]) {
      assert trace[..i] + trace[i..] == trace && [] + trace[..i] == trace[..i];
      ConsumeAllConcat(lib, t, trace[..i], trace[i..]);
    }
    StopAtUnique(stop, [], trace, 0);
    StoppingCutsTheRun(stop, [], s, bytes);
    assert [] + trace == trace;
  }

  /** The scan returned 0 and left exactly the games of the lobby. */
  predicate Scanned(lib: Library, t: Table, r: Run<State>, items: Items)
    requires GoodTable(t) && ServerItems(items) && AllHaveRoom(items)
  {
    var table := ConsumeAll(lib, Begin(t), r.trace).table;
    && ExitCode(r.end) == 0 && table.servers == Reporting(items)
    && table.games[..table.servers] == ReadServers(lib, items) && table.rows == ClosedServers(items, 0)
  }

  predicate ScannableLobby(root: Node) {
    Lobby(root) && Printable(root) && LobbyFits(root) && Acceptable(root.members.val.items, 0)
  }

  /** The parser makes exactly the callbacks of the reading, and returns 0. */
  lemma LobbyFileTrace(lib: Library, t: Table, root: Node, lead: string, trail: string, chunks: seq<string>)
    requires GoodTable(t) && ScannableLobby(root) && AllSpace(lead) && AllSpace(trail)
    requires Joined(chunks) == lead + Print(root) + trail
    requires forall j :: 0 <= j < |chunks| ==> chunks[j] != ""
    ensures var r := Parse(Answers(lib, Begin(t)), false, ReadsOf(chunks));
      ExitCode(r.end) == 0 && r.trace == WalkDocument(root).trace
  {
    LobbyAccepted(root);
    LobbyIsRead(lib, t, root);
    var bytes := Joined(chunks);
    BodyWithoutLength(Initial(false), bytes);
    DocumentRoundTrip(root, lead, trail);
    NobodyStops(lib, Begin(t), Initial(false), bytes);
    ChunkIndependence(Answers(lib, Begin(t)), false, chunks);
  }

  /** A lobby in a file, read in any chunks: the scan fills the table with what the document says. */
  lemma LobbyFileIsScanned(lib: Library, t: Table, root: Node, lead: string, trail: string, chunks: seq<string>)
    requires GoodTable(t) && ScannableLobby(root) && AllSpace(lead) && AllSpace(trail)
    requires Joined(chunks) == lead + Print(root) + trail
    requires forall j :: 0 <= j < |chunks| ==> chunks[j] != ""
    ensures Scanned(lib, t, Parse(Answers(lib, Begin(t)), false, ReadsOf(chunks)), root.members.val.items)
  {
    LobbyAccepted(root);
    LobbyIsRead(lib, t, root);
    LobbyFileTrace(lib, t, root, lead, trail, chunks);
  }

  lemma SomebodyStops(lib: Library, t: Table, s: State, bytes: string)
    requires GoodTable(t) && ConsumeAll(lib, t, RunAll(s, bytes).trace).stop
    ensures RunWith(Answers(lib, t), [], s, bytes).end == Return(1)
  {
    var stop, trace := Answers(lib, t), RunAll(s, bytes).trace;
    StoppingCutsTheRun(stop, [], s, bytes);
    assert trace[..|trace|] == trace && [] + trace == trace;
    assert stop([] + trace[..|trace|]);
  }

  lemma FailuresStayFailures(stop: Consumer, s: State, bytes: string)
    ensures ExitCode(RunAll(s, bytes).end) != 0 ==> ExitCode(RunWith(stop, [], s, bytes).end) != 0
  {
    StoppingCutsTheRun(stop, [], s, bytes);
  }

  /** The conditions are exact: a lobby file is accepted, by parser and consumer together, if and only if its texts fit,
      there is room for its servers and their players, and none that reports something follows one that does not. */
  lemma LobbyFileIsAcceptedIff(lib: Library, t: Table, root: Node, lead: string, trail: string, chunks: seq<string>)
    requires GoodTable(t) && Lobby(root) && Printable(root) && AllSpace(lead) && AllSpace(trail)
    requires Joined(chunks) == lead + Print(root) + trail
    requires forall j :: 0 <= j < |chunks| ==> chunks[j] != ""
    ensures ExitCode(Parse(Answers(lib, Begin(t)), false, ReadsOf(chunks)).end) == 0 <==> ScannableLobby(root)
  {
    LobbyAccepted(root);
    var bytes := Joined(chunks);
    ChunkIndependence(Answers(lib, Begin(t)), false, chunks);
    BodyWithoutLength(Initial(false), bytes);
    DocumentRoundTrip(root, lead, trail);
    if !LobbyFits(root) {
      FailuresStayFailures(Answers(lib, Begin(t)), Initial(false), bytes);
    } else {
      LobbyIsAcceptedIff(lib, t, root);
      if Acceptable(root.members.val.items, 0) {
        LobbyFileIsScanned(lib, t, root, lead, trail, chunks);
      } else {
        SomebodyStops(lib, Begin(t), Initial(false), bytes);
      }
    }
  }

  /** The same lobby as the body of a 200 response with its length announced, read in any chunks. */
  lemma LobbyResponseIsScanned(lib: Library, t: Table, status: string, headers: seq<Header>, root: Node, lead: string,
                               i: nat, chunks: seq<string>)
    requires GoodTable(t) && ScannableLobby(root) && AllSpace(lead) && GoodStatus(status)
    requires Readable(headers) && EndsWithAValue(headers) && Announces(headers, i, lead + Print(root))
    requires forall j :: 0 <= j < |chunks| ==> chunks[j] != ""
    requires Joined(chunks) == PrintResponse(status, headers, lead + Print(root))
    ensures Scanned(lib, t, Parse(Answers(lib, Begin(t)), true, ReadsOf(chunks)), root.members.val.items)
  {
    LobbyAccepted(root);
    LobbyIsRead(lib, t, root);
    var bytes := Joined(chunks);
    ResponseRoundTrip(status, headers, root, lead, i, chunks);
    ChunkIndependence(_ => false, true, chunks);
    Unstopped(Initial(true), bytes);
    NobodyStops(lib, Begin(t), Initial(true), bytes);
    ChunkIndependence(Answers(lib, Begin(t)), true, chunks);
  }
}
