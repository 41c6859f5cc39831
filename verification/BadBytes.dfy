/** Escapes and line breaks within quotes (bzccnet.c): what a backslash may be followed by, and what becomes of a
    document with a byte in it that may not be there, or of one that cannot be read to its end. */
module BadBytes {
  import opened CStrings
  import opened ParserSpec
  import opened ParserInvariants
  import opened ParserRuns
  import opened Document
  import opened RoundTrip
  import opened HttpFraming
  import opened BracketStack
  import opened Grammar

  // ---------------------------------------------------------------- one escape

  /** The run goes on with one more character in the value. */
  function WithCharacter(s: JState, c: char, rest: string): Run<JState> {
    RunJson(s.(value := s.value + [c]), rest)
  }

  /** A backslash in a quoted value, and the byte after it, for every byte: five escapes, each for one character, and no
      other. */
  lemma EscapeDecides(s: JState, c: char, rest: string)
    requires s.mode == ReadValue && s.inQuote && !s.inEscape && |s.value| < 1023
    ensures RunJson(s, ['\\'] + ([c] + rest)) ==
      if c == '"' then WithCharacter(s, '"', rest)
      else if c == '\\' then WithCharacter(s, '\\', rest)
      else if c == 'r' then WithCharacter(s, '\r', rest)
      else if c == 'n' then WithCharacter(s, '\n', rest)
      else if c == 't' then WithCharacter(s, '\t', rest)
      else Run([], Return(1))
  {
    ReadByte(s, '\\', [c] + rest);
    ReadByte(s.(inEscape := true), c, rest);
  }

  /** Any other byte of a quoted value stands for itself, unless it is a line break or closes the value. */
  lemma PlainByteDecides(s: JState, c: char, rest: string)
    requires s.mode == ReadValue && s.inQuote && !s.inEscape && |s.value| < 1023 && c != '"' && c != '\\'
    ensures RunJson(s, [c] + rest) ==
      if c == '\n' || c == '\r' then Run([], Return(1)) else WithCharacter(s, c, rest)
  {
    ReadByte(s, c, rest);
  }

  // ---------------------------------------------------------------- in a stream

  lemma {:induction false} PlaceHasScan(p: Place, bytes: string)
    ensures PlaceAfter(p, bytes).scan == ScanText(p.scan, bytes)
    decreases |bytes|
  {
    if bytes != "" {
      SpacesAreBlank(bytes[0]);
      PlaceHasScan(ReadOn(p, bytes[0]), bytes[1..]);
    }
  }

  predicate NoEscape(c: char) {
    c != '"' && c != '\\' && c != 'r' && c != 'n' && c != 't'
  }

  /** What is said here of the text before the bad byte: the parser has read it, and it ends inside a quoted value. */
  predicate InsideAValue(a: string) {
    RunJson(INITIAL_JSON, a).end.Go? && ScanText(START_OF_TEXT, a).quoting == InString
  }

  predicate InsideAKey(a: string) {
    RunJson(INITIAL_JSON, a).end.Go? && ScanText(START_OF_TEXT, a).quoting == InKey
  }

  lemma BackslashLeads(a: string)
    requires ScanText(START_OF_TEXT, a).quoting == InString
    ensures ScanText(START_OF_TEXT, a + ['\\']).quoting == InEscape
  {
    var bytes := a + ['\\'];
    assert bytes[..|a|] == a && bytes[..|a| + 1] == bytes;
    ScanOneMore(START_OF_TEXT, bytes, |a|);
  }

  lemma BackslashIsRead(a: string)
    requires InsideAValue(a)
    ensures Fits(a + ['\\']) && PlaceAfter(START, a + ['\\']).scan.quoting == InEscape
    ensures RunJson(INITIAL_JSON, a + ['\\']).trace == RunJson(INITIAL_JSON, a).trace
  {
    PlaceHasScan(START, a);
    PlaceHasScan(START, a + ['\\']);
    BackslashLeads(a);
    StreamIsReadIff(a);
    FitsOneMore(a, '\\');
    BackslashAddsNothing(a);
  }

  lemma BackslashAddsNothing(a: string)
    requires InsideAValue(a)
    ensures RunJson(INITIAL_JSON, a + ['\\']).trace == RunJson(INITIAL_JSON, a).trace
  {
    PlaceHasScan(START, a);
    StartIsAt();
    RunIsAt(INITIAL_JSON, START, a);
    RunContinues(INITIAL_JSON, a, ['\\']);
    BackslashIsSilent(RunJson(INITIAL_JSON, a).end.state);
  }

  lemma BackslashIsSilent(s: JState)
    requires s.mode == ReadValue && s.inQuote && !s.inEscape
    ensures RunJson(s, ['\\']) == Run([], Go(s.(inEscape := true)))
  {
    ReadByte(s, '\\', "");
    assert ['\\'] + "" == ['\\'];
  }

  /** In any stream: a backslash within a quoted value, followed by any byte but the five, ends the run with 1 and with
      the callbacks made before, whatever comes after. */
  lemma BadEscapeIsRejected(a: string, c: char, rest: string)
    requires InsideAValue(a) && NoEscape(c)
    ensures RunJson(INITIAL_JSON, a + (['\\'] + ([c] + rest))) == Run(RunJson(INITIAL_JSON, a).trace, Return(1))
  {
    BackslashIsRead(a);
    FirstBadByte(a + ['\\'], c, rest);
    assert a + (['\\'] + ([c] + rest)) == a + ['\\'] + ([c] + rest);
  }

  /** And so does a line break within a quoted value or a key. */
  lemma LineBreakIsRejected(a: string, c: char, rest: string)
    requires (InsideAValue(a) || InsideAKey(a)) && (c == '\n' || c == '\r')
    ensures RunJson(INITIAL_JSON, a + ([c] + rest)) == Run(RunJson(INITIAL_JSON, a).trace, Return(1))
  {
    PlaceHasScan(START, a);
    StreamIsReadIff(a);
    FirstBadByte(a, c, rest);
  }

  // ---------------------------------------------------------------- in a document

  /** The first `n` bytes of an accepted document, with white space of any kind. */
  predicate BeginsADocument(a: string, root: Node, lead: string, trail: string) {
    && root.Obj? && Printable(root) && AllSpace(lead) && AllSpace(trail) && WalkDocument(root).ok
    && a <= lead + Print(root) + trail
  }

  lemma BeginningIsRead(a: string, root: Node, lead: string, trail: string)
    requires BeginsADocument(a, root, lead, trail)
    ensures RunJson(INITIAL_JSON, a).end.Go? && RunJson(INITIAL_JSON, a).trace <= WalkDocument(root).trace
  {
    var text := lead + Print(root) + trail;
    DocumentRoundTrip(root, lead, trail);
    assert a + text[|a|..] == text;
    GoesOnFrom(INITIAL_JSON, a, text[|a|..]);
  }

  /** The bytes with which a document goes wrong: a bad escape or a line break within a quoted value, or a line break
      within a key. */
  predicate GoesWrong(a: string, bad: string) {
    match ScanText(START_OF_TEXT, a).quoting
    case InString =>
      (|bad| >= 2 && bad[0] == '\\' && NoEscape(bad[1])) || (bad != "" && (bad[0] == '\n' || bad[0] == '\r'))
    case InKey => bad != "" && (bad[0] == '\n' || bad[0] == '\r')
    case _ => false
  }

  lemma WrongBytesAreRejected(a: string, bad: string)
    requires RunJson(INITIAL_JSON, a).end.Go? && GoesWrong(a, bad)
    ensures RunJson(INITIAL_JSON, a + bad) == Run(RunJson(INITIAL_JSON, a).trace, Return(1))
  {
    if bad[0] == '\\' {
      assert bad == ['\\'] + ([bad[1]] + bad[2..]);
      BadEscapeIsRejected(a, bad[1], bad[2..]);
    } else {
      assert bad == [bad[0]] + bad[1..];
      LineBreakIsRejected(a, bad[0], bad[1..]);
    }
  }

  /** A file that begins like an accepted document, and goes wrong within quotes: it returns 1 after the callbacks made
      so far, which are the first ones of the document, however it is cut into reads. */
  lemma BrokenFileIsRejected(a: string, bad: string, root: Node, lead: string, trail: string, chunks: seq<string>)
    requires BeginsADocument(a, root, lead, trail) && GoesWrong(a, bad)
    requires Joined(chunks) == a + bad && forall j :: 0 <= j < |chunks| ==> chunks[j] != ""
    ensures var r := Parse(_ => false, false, ReadsOf(chunks));
      r == Run(RunJson(INITIAL_JSON, a).trace, Return(1)) && r.trace <= WalkDocument(root).trace
  {
    BeginningIsRead(a, root, lead, trail);
    WrongBytesAreRejected(a, bad);
    ChunkIndependence(_ => false, false, chunks);
    Unstopped(Initial(false), Joined(chunks));
    BodyWithoutLength(Initial(false), Joined(chunks));
  }

  /** The return value for every file, however it is cut into reads. */
  lemma FileReturnsZeroIff(chunks: seq<string>)
    requires forall j :: 0 <= j < |chunks| ==> chunks[j] != ""
    ensures ExitCode(Parse(_ => false, false, ReadsOf(chunks)).end) ==
      if Fits(Joined(chunks)) || (exists k :: ClosedTwice(Joined(chunks), k)) then 0 else 1
  {
    ChunkIndependence(_ => false, false, chunks);
    Unstopped(Initial(false), Joined(chunks));
    BodyWithoutLength(Initial(false), Joined(chunks));
    ReturnsZeroIff(Joined(chunks));
  }

  // ---------------------------------------------------------------- a read that fails

  /** The chunks, then one more read, and then whatever else the reader would have delivered. */
  function ReadsThen(chunks: seq<string>, next: Read, more: seq<Read>): seq<Read> {
    if chunks == [] then [next] + more else [Received(chunks[0])] + ReadsThen(chunks[1..], next, more)
  }

  lemma {:induction false} DeliveredThen(chunks: seq<string>, next: Read, more: seq<Read>)
    requires (forall j :: 0 <= j < |chunks| ==> chunks[j] != "") && (next == Failed || next == Received(""))
    ensures Delivered(ReadsThen(chunks, next, more)) == Joined(chunks)
    ensures Broken(ReadsThen(chunks, next, more)) <==> next == Failed
  {
    if chunks != [] {
      DeliveredThen(chunks[1..], next, more);
      assert ReadsThen(chunks, next, more)[1..] == ReadsThen(chunks[1..], next, more);
    }
  }

  /** A read that fails ends the run with 1, unless it has returned before, and with the callbacks made so far; an empty
      read is the end of the stream. Nothing is read afterwards. */
  lemma FailedReadReturnsOne(stop: Consumer, http: bool, chunks: seq<string>, more: seq<Read>)
    requires forall j :: 0 <= j < |chunks| ==> chunks[j] != ""
    ensures var whole := Parse(stop, http, ReadsOf(chunks));
      && Parse(stop, http, ReadsThen(chunks, Received(""), more)) == whole
      && Parse(stop, http, ReadsThen(chunks, Failed, more)) ==
        if whole.end.Go? then Run(whole.trace, Return(1)) else whole
  {
    ChunkIndependence(stop, http, chunks);
    DeliveredThen(chunks, Received(""), more);
    DeliveredThen(chunks, Failed, more);
  }

  // ---------------------------------------------------------------- a key without a value

  /** After the brace that closes an object within an object, and a key that was left without a value there. */
  function AfterKeyAlone(s: JState, key: string): JState
    requires s.stack != []
  {
    CountClosedObject(s).(name := s.name + key, stack := s.stack[..|s.stack| - 1])
  }

  lemma ObjectEndsAtOnce(s: JState)
    requires GoodJson(s) && s.mode == Value && |s.stack| > 1 && !s.stack[|s.stack| - 1] && !s.stack[|s.stack| - 2]
    ensures StepJson(s, '}') == Continue(CountClosedObject(s).(mode := KeyName, stack := s.stack[..|s.stack| - 1]))
  {
    var outer := s.stack[..|s.stack| - 1];
    assert outer != [] && outer[|outer| - 1] == s.stack[|s.stack| - 2];
    assert OnNext(s.(mode := Next), '}') == Continue(Closed(CountClosedObject(s.(mode := Next)), KeyName));
  }

  lemma KeyAlone(s: JState, key: string, rest: string)
    requires GoodJson(s) && s.mode == KeyName && !s.inQuote && |s.stack| > 1 && !s.stack[|s.stack| - 2]
    requires '"' !in key && KeyFits(key) && |s.name| + |key| < 1024
    ensures RunJson(s, ['"'] + (key + ['"'] + ([':'] + (['}'] + rest)))) == RunJson(AfterKeyAlone(s, key), rest)
  {
    var tail := [':'] + (['}'] + rest);
    var quoted := s.(inQuote := true);
    var read := s.(name := s.name + key, mode := KeySep);
    ReadByte(s, '"', key + ['"'] + tail);
    ReadKey(quoted, key, tail);
    ReadByte(read, ':', ['}'] + rest);
    ObjectEndsAtOnce(read.(mode := Value));
    ReadByte(read.(mode := Value), '}', rest);
  }

  /** It runs into the next key: the value after that one is reported under both together. */
  lemma KeysRunTogether(s: JState, first: string, second: string, rest: string)
    requires GoodJson(s) && s.mode == KeyName && !s.inQuote && |s.stack| > 1 && !s.stack[|s.stack| - 2] && s.name == ""
    requires '"' !in first && '"' !in second && KeyFits(first) && KeyFits(second) && |first| + |second| < 1024
    ensures RunJson(s, ['"'] + (first + ['"'] + ([':'] + (['}'] + (['"'] + (second + ['"'] + rest)))))) ==
      RunJson(AfterKeyAlone(s, first).(name := first + second, mode := KeySep), rest)
  {
    KeyAlone(s, first, ['"'] + (second + ['"'] + rest));
    var next := AfterKeyAlone(s, first);
    assert "" + first == first;
    ReadByte(next, '"', second + ['"'] + rest);
    ReadKey(next.(inQuote := true), second, rest);
  }

  // ---------------------------------------------------------------- an escaped slash

  /** Where the text of the first member begins. */
  const IN_TEXT := JState(ReadValue, "a", "", [false], true, false, 0, 0)

  lemma MemberBegins()
    ensures RunJson(INITIAL_JSON, "{\"a\":\"") == Run([], Go(IN_TEXT))
  {
    var s1 := JState(KeyName, "", "", [false], false, false, 0, 0);
    var s2, s3 := s1.(inQuote := true), s1.(inQuote := true, name := "a");
    var s4 := s3.(inQuote := false, mode := KeySep);
    var s5 := s4.(mode := Value);
    var text := "{\"a\":\"";
    assert text[1..] == "\"a\":\"" && text[1..][1..] == "a\":\"" && text[1..][1..][1..] == "\":\"";
    assert "\":\""[1..] == ":\"" && ":\""[1..] == "\"" && "\""[1..] == "";
    assert RunJson(s5, "\"") == Run([], Go(IN_TEXT));
    assert RunJson(s4, ":\"") == Run([], Go(IN_TEXT));
    assert RunJson(s3, "\":\"") == Run([], Go(IN_TEXT));
    assert StepJson(s2, 'a') == Continue(s3) by { assert "" + ['a'] == "a"; }
    assert RunJson(s2, "a\":\"") == Run([], Go(IN_TEXT));
    assert StepJson(s1, '"') == Continue(s2);
    assert RunJson(s1, "\"a\":\"") == Run([], Go(IN_TEXT));
    assert StepJson(INITIAL_JSON, '{') == Continue(s1) by { assert INITIAL_JSON.stack + [false] == [false]; }
  }

  /** JSON's escaped slash is not among the five. */
  lemma SlashIsNoEscape(rest: string)
    ensures RunJson(INITIAL_JSON, "{\"a\":\"" + (['\\'] + (['/'] + rest))) == Run([], Return(1))
  {
    MemberBegins();
    RunContinues(INITIAL_JSON, "{\"a\":\"", ['\\'] + (['/'] + rest));
    EscapeDecides(IN_TEXT, '/', rest);
  }
}
