/** The head of a response (bzccnet.c): the status line has to end in 200 OK, no line may be too long, and a line
    without a colon is the last. */
module StatusLines {
  import opened CStrings
  import opened ParserSpec
  import opened ParserRuns
  import opened HttpFraming

  /** The last six characters, said one by one. */
  predicate Ends200(status: string)
    requires |status| >= 6
  {
    var n := |status|;
    && status[n - 6] == '2' && status[n - 5] == '0' && status[n - 4] == '0' && status[n - 3] == ' '
    && (status[n - 2] == 'O' || status[n - 2] == 'o') && (status[n - 1] == 'K' || status[n - 1] == 'k')
  }

  lemma OkLineEnds200(status: string)
    requires |status| >= 6
    ensures IsOkLine(status) <==> Ends200(status)
  {
    var last, ok := status[|status| - 6..], "200 OK";
    assert forall i :: 0 <= i < 6 ==> last[i] == status[|status| - 6 + i];
    assert ok[0] == '2' && ok[1] == '0' && ok[2] == '0' && ok[3] == ' ' && ok[4] == 'O' && ok[5] == 'K';
    if IsOkLine(status) {
      assert forall i :: 0 <= i < 6 ==> LowerChar(last[i]) == LowerChar(ok[i]);
      assert LowerChar(last[4]) == 'o' && LowerChar(last[5]) == 'k';
    }
  }

  /** Any text without a line end is taken for the status, as long as it fits. */
  lemma {:induction false} StatusIsCollected(s: State, text: string, rest: string)
    requires s.mode == HttpHeader && |s.json.name| + |text| < GENERIC_BUFLEN && NoLineEnd(s.json.name + text)
    ensures RunAll(s, text + rest) == RunAll(SetName(s, s.json.name + text), rest)
    decreases |text|
  {
    var name := s.json.name;
    if text == "" {
      assert text + rest == rest && name + text == name;
    } else {
      assert (name + text)[|name|] == text[0];
      assert name != "" ==> (name + text)[|name| - 1] == name[|name| - 1];
      assert text + rest == [text[0]] + (text[1..] + rest);
      var next := SetName(s, name + [text[0]]);
      RunByte(s, text[0], text[1..] + rest, next);
      assert name + [text[0]] + text[1..] == name + text;
      StatusIsCollected(next, text[1..], rest);
    }
  }

  lemma FailsNow(s: State, c: char, rest: string)
    requires Step(s, c) == Fail<State>()
    ensures RunAll(s, [c] + rest) == Run([], Return(1))
  {
  }

  lemma LineEndDecides(status: string, rest: string)
    requires 6 <= |status| <= 1022 && NUL !in status
    ensures RunAll(SetName(Initial(true), status), CRLF + rest) ==
      if IsOkLine(status) then RunAll(AtHeader(0), rest) else Run([], Return(1))
  {
    var s, line := SetName(Initial(true), status), status + ['\r'];
    var ended := SetName(Initial(true), line);
    assert CRLF + rest == ['\r'] + (['\n'] + rest) && line[..|line| - 1] == status;
    CStrIsWhole(status);
    RunByte(s, '\r', ['\n'] + rest, ended);
    if IsOkLine(status) {
      RunByte(ended, '\n', rest, AtHeader(0));
    } else {
      FailsNow(ended, '\n', rest);
    }
  }

  /** For every status of 6 to 1022 characters, and whatever follows its line end: the response is rejected before any
      callback, unless the status ends in 200 OK, in upper or lower case; then what follows is read as header lines. */
  lemma StatusDecides(status: string, rest: string)
    requires 6 <= |status| <= 1022 && NUL !in status && NoLineEnd(status)
    ensures RunAll(Initial(true), status + (CRLF + rest)) ==
      if Ends200(status) then RunAll(AtHeader(0), rest) else Run([], Return(1))
  {
    assert "" + status == status;
    StatusIsCollected(Initial(true), status, CRLF + rest);
    LineEndDecides(status, rest);
    OkLineEnds200(status);
  }

  /** A status line that is too long for the buffer is rejected at its 1024th character. */
  lemma OverlongStatusIsRejected(text: string, rest: string)
    requires |text| == 1024 && NoLineEnd(text)
    ensures RunAll(Initial(true), text + rest) == Run([], Return(1))
  {
    var fits, c := text[..1023], text[1023];
    assert text + rest == fits + ([c] + rest) && "" + fits == fits;
    assert NoLineEnd(fits) by { assert forall k :: 0 <= k < 1023 ==> fits[k] == text[k]; }
    StatusIsCollected(Initial(true), fits, [c] + rest);
    assert fits[1022] == text[1022];
    FailsNow(SetName(Initial(true), fits), c, rest);
  }

  /** So is a header's name. */
  lemma OverlongNameIsRejected(length: nat, text: string, rest: string)
    requires |text| == 1024 && '\r' !in text && ':' !in text && !IsSpace(text[0])
    ensures RunAll(AtHeader(length), text + rest) == Run([], Return(1))
  {
    var fits, c := text[..1023], text[1023];
    assert text + rest == fits + ([c] + rest) && "" + fits == fits && fits[1022] == text[1022];
    assert c != ':' && fits[1022] in text;
    ReadHeaderName(AtHeader(length), fits, [c] + rest);
    FailsNow(SetName(AtHeader(length), fits), c, rest);
  }

  /** A header line without a colon ends the head like a blank one: what follows is read as the body. */
  lemma ColonlessLineEndsTheHead(length: nat, text: string, rest: string)
    requires |text| <= 1022 && '\r' !in text && ':' !in text && (text != "" ==> !IsSpace(text[0]))
    ensures RunAll(AtHeader(length), text + (CRLF + rest)) == RunAll(State(Json, length, 0, INITIAL_JSON), rest)
  {
    var s := SetName(AtHeader(length), text);
    assert "" + text == text && CRLF + rest == ['\r'] + (['\n'] + rest);
    ReadHeaderName(AtHeader(length), text, CRLF + rest);
    var ended := SetName(s, text + ['\r']);
    RunByte(s, '\r', ['\n'] + rest, ended);
    RunByte(ended, '\n', rest, State(Json, length, 0, INITIAL_JSON));
  }

  /** An error page makes no callback and returns 1, however it is cut into reads and whatever the consumer answers. */
  lemma ErrorPageIsRejected(stop: Consumer, status: string, rest: string, chunks: seq<string>)
    requires 6 <= |status| <= 1022 && NUL !in status && NoLineEnd(status) && !Ends200(status)
    requires Joined(chunks) == status + (CRLF + rest) && forall j :: 0 <= j < |chunks| ==> chunks[j] != ""
    ensures Parse(stop, true, ReadsOf(chunks)) == Run([], Return(1))
  {
    StatusDecides(status, rest);
    ChunkIndependence(stop, true, chunks);
    StoppingCutsTheRun(stop, [], Initial(true), Joined(chunks));
  }

  const NOT_FOUND := "HTTP/1.1 404 Not Found"

  lemma NotFoundIsAStatus()
    ensures |NOT_FOUND| == 22 && NUL !in NOT_FOUND && NoLineEnd(NOT_FOUND) && !Ends200(NOT_FOUND)
  {
    assert '\r' !in NOT_FOUND;
  }

  lemma NotFoundIsRejected(stop: Consumer, rest: string, chunks: seq<string>)
    requires Joined(chunks) == NOT_FOUND + (CRLF + rest) && forall j :: 0 <= j < |chunks| ==> chunks[j] != ""
    ensures Parse(stop, true, ReadsOf(chunks)) == Run([], Return(1))
  {
    NotFoundIsAStatus();
    ErrorPageIsRejected(stop, NOT_FOUND, rest, chunks);
  }
}
