/** An HTTP response around a document: the header lines only set the length, and the length only decides where the
    parser stops. */
module HttpFraming {
  import opened CStrings
  import opened ParserSpec
  import opened ParserRuns
  import opened Document
  import opened RoundTrip

  // ---------------------------------------------------------------- printing a response

  /** A field line of section 5 of RFC 9112: name, colon, optional white space, value. */
  datatype Header = Header(name: string, gap: string, value: string)

  predicate FitsLine(s: string) {
    |s| + 1 < GENERIC_BUFLEN && '\r' !in s
  }

  /** A name and a value as the parser reads them: any white space may come between them. */
  predicate ReadAsHeader(h: Header) {
    && h.name != "" && FitsLine(h.name) && !IsSpace(h.name[0]) && ':' !in h.name && AllSpace(h.gap)
    && h.value != "" && FitsLine(h.value) && !IsSpace(h.value[0])
  }

  predicate OnOneLine(gap: string) {
    AllSpace(gap) && '\r' !in gap && '\n' !in gap
  }

  /** A field line that the parser reads as one line: in particular neither name nor value is empty. */
  predicate GoodHeader(h: Header) {
    ReadAsHeader(h) && OnOneLine(h.gap)
  }

  /** A status line of section 4 of RFC 9112 that ends in 200 OK. */
  predicate GoodStatus(status: string) {
    FitsLine(status) && NUL !in status && IsOkLine(status)
  }

  const CRLF := ['\r', '\n']

  function PrintHeader(h: Header): string { h.name + ([':'] + (h.gap + (h.value + CRLF))) }

  function PrintHeaders(headers: seq<Header>): string {
    if headers == [] then "" else PrintHeader(headers[0]) + PrintHeaders(headers[1..])
  }

  function PrintResponse(status: string, headers: seq<Header>, body: string): string {
    status + (CRLF + (PrintHeaders(headers) + (CRLF + body)))
  }

  // ---------------------------------------------------------------- header lines

  lemma RunByte(s: State, c: char, rest: string, next: State)
    requires Step(s, c) == Continue(next)
    ensures RunAll(s, [c] + rest) == RunAll(next, rest)
  {
    assert ([c] + rest)[1..] == rest;
    assert [] + RunAll(next, rest).trace == RunAll(next, rest).trace;
  }

  lemma {:induction false} ReadStatus(s: State, text: string, rest: string)
    requires s.mode == HttpHeader && |s.json.name| + |text| < GENERIC_BUFLEN && '\r' !in text
    requires '\r' !in s.json.name
    ensures RunAll(s, text + rest) == RunAll(SetName(s, s.json.name + text), rest)
    decreases |text|
  {
    if text == "" {
      assert text + rest == rest && s.json.name + text == s.json.name;
    } else {
      assert text + rest == [text[0]] + (text[1..] + rest);
      var next := SetName(s, s.json.name + [text[0]]);
      RunByte(s, text[0], text[1..] + rest, next);
      ReadStatus(next, text[1..], rest);
      assert s.json.name + [text[0]] + text[1..] == s.json.name + text;
    }
  }

  lemma StatusAccepted(status: string)
    requires GoodStatus(status)
    ensures Step(SetName(Initial(true), status), '\r') == Continue(SetName(Initial(true), status + ['\r']))
    ensures Step(SetName(Initial(true), status + ['\r']), '\n') == Continue(Initial(true).(mode := HttpName))
  {
    var line := status + ['\r'];
    assert line[..|line| - 1] == status;
    CStrIsWhole(status);
  }

  lemma StatusLine(status: string, rest: string)
    requires GoodStatus(status)
    ensures RunAll(Initial(true), status + (CRLF + rest)) == RunAll(Initial(true).(mode := HttpName), rest)
  {
    var s := Initial(true);
    assert "" + status == status;
    ReadStatus(s, status, CRLF + rest);
    assert CRLF + rest == ['\r'] + (['\n'] + rest);
    StatusAccepted(status);
    var ended := SetName(s, status + ['\r']);
    RunByte(SetName(s, status), '\r', ['\n'] + rest, ended);
    RunByte(ended, '\n', rest, s.(mode := HttpName));
  }

  lemma {:induction false} ReadHeaderName(s: State, text: string, rest: string)
    requires s.mode == HttpName && |s.json.name| + |text| < GENERIC_BUFLEN
    requires '\r' !in text && ':' !in text && '\r' !in s.json.name
    requires s.json.name == "" && text != "" ==> !IsSpace(text[0])
    ensures RunAll(s, text + rest) == RunAll(SetName(s, s.json.name + text), rest)
    decreases |text|
  {
    if text == "" {
      assert text + rest == rest && s.json.name + text == s.json.name;
    } else {
      assert text + rest == [text[0]] + (text[1..] + rest);
      var next := SetName(s, s.json.name + [text[0]]);
      RunByte(s, text[0], text[1..] + rest, next);
      ReadHeaderName(next, text[1..], rest);
      assert s.json.name + [text[0]] + text[1..] == s.json.name + text;
    }
  }

  lemma {:induction false} SkipHeaderGap(s: State, gap: string, rest: string)
    requires s.mode == HttpValue && s.json.value == "" && AllSpace(gap)
    ensures RunAll(s, gap + rest) == RunAll(s, rest)
    decreases |gap|
  {
    if gap == "" {
      assert gap + rest == rest;
    } else {
      assert gap + rest == [gap[0]] + (gap[1..] + rest);
      RunByte(s, gap[0], gap[1..] + rest, s);
      SkipHeaderGap(s, gap[1..], rest);
    }
  }

  lemma {:induction false} ReadHeaderValue(s: State, text: string, rest: string)
    requires s.mode == HttpValue && |s.json.value| + |text| < GENERIC_BUFLEN
    requires '\r' !in text && '\r' !in s.json.value
    requires s.json.value == "" && text != "" ==> !IsSpace(text[0])
    ensures RunAll(s, text + rest) == RunAll(SetValue(s, s.json.value + text), rest)
    decreases |text|
  {
    if text == "" {
      assert text + rest == rest && s.json.value + text == s.json.value;
    } else {
      assert text + rest == [text[0]] + (text[1..] + rest);
      var next := SetValue(s, s.json.value + [text[0]]);
      RunByte(s, text[0], text[1..] + rest, next);
      ReadHeaderValue(next, text[1..], rest);
      assert s.json.value + [text[0]] + text[1..] == s.json.value + text;
    }
  }

  /** Between header lines, with the length announced so far. */
  function AtHeader(length: nat): State {
    State(HttpName, length, 0, INITIAL_JSON)
  }

  lemma HeaderLine(length: nat, h: Header, rest: string)
    requires ReadAsHeader(h)
    ensures RunAll(AtHeader(length), PrintHeader(h) + rest) ==
      RunAll(AtHeader(NewContentLength(length, h.name, h.value)), rest)
  {
    var s0 := AtHeader(length);
    var r2 := h.gap + (h.value + (CRLF + rest));
    assert PrintHeader(h) + rest == h.name + ([':'] + r2);
    assert "" + h.name == h.name && "" + h.value == h.value;
    ReadHeaderName(s0, h.name, [':'] + r2);
    var s1 := SetName(s0, h.name);
    RunByte(s1, ':', r2, s1.(mode := HttpValue));
    SkipHeaderGap(s1.(mode := HttpValue), h.gap, h.value + (CRLF + rest));
    ReadHeaderValue(s1.(mode := HttpValue), h.value, CRLF + rest);
    EndHeaderLine(length, h, rest);
  }

  lemma EndHeaderLine(length: nat, h: Header, rest: string)
    requires ReadAsHeader(h)
    ensures RunAll(SetValue(SetName(AtHeader(length), h.name).(mode := HttpValue), h.value), CRLF + rest) ==
      RunAll(AtHeader(NewContentLength(length, h.name, h.value)), rest)
  {
    var s := SetValue(SetName(AtHeader(length), h.name).(mode := HttpValue), h.value);
    assert CRLF + rest == ['\r'] + (['\n'] + rest);
    var ended := SetValue(s, h.value + ['\r']);
    RunByte(s, '\r', ['\n'] + rest, ended);
    assert ended.json.value[..|ended.json.value| - 1] == h.value;
    RunByte(ended, '\n', rest, AtHeader(NewContentLength(length, h.name, h.value)));
  }

  /** The length that a list of header lines announces: the last Content-Length, 0 if there is none. */
  function Announced(length: nat, headers: seq<Header>): nat
    decreases |headers|
  {
    if headers == [] then length
    else Announced(NewContentLength(length, headers[0].name, headers[0].value), headers[1..])
  }

  lemma {:induction false} HeaderLines(length: nat, headers: seq<Header>, rest: string)
    requires forall h <- headers :: GoodHeader(h)
    ensures RunAll(AtHeader(length), PrintHeaders(headers) + rest) == RunAll(AtHeader(Announced(length, headers)), rest)
    decreases |headers|
  {
    if headers == [] {
      assert PrintHeaders(headers) + rest == rest;
    } else {
      assert PrintHeaders(headers) + rest == PrintHeader(headers[0]) + (PrintHeaders(headers[1..]) + rest);
      assert GoodHeader(headers[0]);
      HeaderLine(length, headers[0], PrintHeaders(headers[1..]) + rest);
      HeaderLines(NewContentLength(length, headers[0].name, headers[0].value), headers[1..], rest);
    }
  }

  predicate IsLength(h: Header) {
    EqualNoCase(CStr(h.name), "Content-Length")
  }

  /** One Content-Length among the headers decides the length. */
  lemma {:induction false} OneLength(length: nat, headers: seq<Header>, i: nat)
    requires i < |headers| && IsLength(headers[i])
    requires forall j :: 0 <= j < |headers| && j != i ==> !IsLength(headers[j])
    ensures Announced(length, headers) == Atoi(headers[i].value) % DWORD
    decreases |headers|
  {
    var next := NewContentLength(length, headers[0].name, headers[0].value);
    if i == 0 {
      NoLength(next, headers[1..]);
    } else {
      OneLength(next, headers[1..], i - 1);
    }
  }

  lemma {:induction false} NoLength(length: nat, headers: seq<Header>)
    requires forall h <- headers :: !IsLength(h)
    ensures Announced(length, headers) == length
  {
    if headers != [] {
      assert !IsLength(headers[0]);
      NoLength(length, headers[1..]);
    }
  }

  // ---------------------------------------------------------------- body

  /** Without a length, the JSON states see every byte. */
  lemma {:induction false} BodyWithoutLength(s: State, body: string)
    requires s.mode == Json && s.contentLength == 0
    ensures var r, j := RunAll(s, body), RunJson(s.json, body);
      && r.trace == j.trace
      && match j.end
         case Return(code) => r.end == Return(code)
         case Go(json) => r.end.Go? && r.end.state.mode == Json && r.end.state.json == json
    decreases |body|
  {
    if body != "" {
      var r := StepJson(s.json, body[0]);
      if r.next.Go? {
        BodyWithoutLength(Step(s, body[0]).next.state, body[1..]);
      }
    }
  }

  /** With a length, the JSON states see all the announced bytes but the last one, at which the run returns 0. */
  lemma {:induction false} BodyWithLength(s: State, body: string)
    requires s.mode == Json && s.jsonLength + |body| == s.contentLength < DWORD && body != ""
    ensures var r, j := RunAll(s, body), RunJson(s.json, body[..|body| - 1]);
      r == Run(j.trace, if j.end.Return? then Return(j.end.code) else Return(0))
    decreases |body|
  {
    var seen := body[..|body| - 1];
    if |body| > 1 {
      assert seen[0] == body[0] && seen[1..] == body[1..][..|body[1..]| - 1];
      var r := StepJson(s.json, body[0]);
      if r.next.Go? {
        BodyWithLength(Step(s, body[0]).next.state, body[1..]);
      }
    }
  }

  lemma AnnouncedLength(headers: seq<Header>, i: nat, length: nat)
    requires i < |headers| && IsLength(headers[i])
    requires forall j :: 0 <= j < |headers| && j != i ==> !IsLength(headers[j])
    requires headers[i].value == Decimal(length) && length < 0x8000_0000
    ensures Announced(0, headers) == length
  {
    OneLength(0, headers, i);
    DecimalLength(length);
  }

  lemma DecimalLength(length: nat)
    requires length < 0x8000_0000
    ensures Atoi(Decimal(length)) % DWORD == length
  {
    AtoiDecimal(length);
  }

  /** What a response's head leaves behind: nothing but the announced length. */
  lemma ResponseHead(status: string, headers: seq<Header>, body: string)
    requires GoodStatus(status) && forall h <- headers :: GoodHeader(h)
    ensures RunAll(Initial(true), PrintResponse(status, headers, body)) ==
      RunAll(State(Json, Announced(0, headers), 0, INITIAL_JSON), body)
  {
    var rest := CRLF + body;
    StatusLine(status, PrintHeaders(headers) + rest);
    assert Initial(true).(mode := HttpName) == AtHeader(0);
    HeaderLines(0, headers, rest);
    BlankLine(Announced(0, headers), body);
  }

  /** For every body, even one that is not JSON: an HTTP response that announces its body's length makes the callbacks
      of a file that holds all of the body but its last byte, and returns what that file returns. */
  lemma Framing(status: string, headers: seq<Header>, body: string, i: nat)
    requires GoodStatus(status) && forall h <- headers :: GoodHeader(h)
    requires i < |headers| && IsLength(headers[i])
    requires forall j :: 0 <= j < |headers| && j != i ==> !IsLength(headers[j])
    requires body != "" && headers[i].value == Decimal(|body|) && |body| < 0x8000_0000
    ensures var response := RunAll(Initial(true), PrintResponse(status, headers, body));
      var file := RunAll(Initial(false), body[..|body| - 1]);
      response.trace == file.trace && ExitCode(response.end) == ExitCode(file.end)
  {
    ResponseHead(status, headers, body);
    AnnouncedLength(headers, i, |body|);
    BodyWithLength(State(Json, |body|, 0, INITIAL_JSON), body);
    BodyWithoutLength(Initial(false), body[..|body| - 1]);
  }

  lemma BlankLine(length: nat, body: string)
    ensures RunAll(AtHeader(length), CRLF + body) == RunAll(State(Json, length, 0, INITIAL_JSON), body)
  {
    assert CRLF + body == ['\r'] + (['\n'] + body);
    var ended := SetName(AtHeader(length), "\r");
    assert "" + ['\r'] == "\r";
    RunByte(AtHeader(length), '\r', ['\n'] + body, ended);
    RunByte(ended, '\n', body, State(Json, length, 0, INITIAL_JSON));
  }

  // ---------------------------------------------------------------- documents

  /** The members of an object without its closing brace. */
  function PrintOpen(m: Members): string
    requires m.Member?
  {
    m.lead + QuotedKey(m.key) + PrintColon(m.beforeColon, m.afterColon) + Print(m.val) + m.trail
    + (if m.rest.NoMember? then "" else [','] + PrintOpen(m.rest))
  }

  lemma {:induction false} PrintOpenIsPrefix(m: Members)
    requires m.Member?
    ensures PrintMembers(m) == PrintOpen(m) + ['}']
  {
    if m.rest.Member? {
      PrintOpenIsPrefix(m.rest);
    }
  }

  /** The members of the root, read without the closing brace: nothing is reported by that brace, and nothing fails
      only at it. */
  lemma {:induction false} OpenMembers(s: JState, m: Members)
    requires AtMember(s) && |s.stack| == 1 && m.Member? && PrintableMembers(m)
    ensures var r, w := RunJson(s, PrintOpen(m)), WalkMembers(m, 1, SlotsOf(s));
      r.trace == w.trace && (if w.ok then r.end.Go? else r.end == Return(1))
    decreases m
  {
    var named := s.(mode := Value, name := m.key);
    if m.rest.NoMember? {
      Regroup(m.lead, QuotedKey(m.key), PrintColon(m.beforeColon, m.afterColon), Print(m.val), m.trail, "", "");
      assert PrintOpen(m) + "" == PrintOpen(m) && "" + "" == "" && m.trail + "" == m.trail;
      MemberKey(s, m, Print(m.val) + m.trail);
      if KeyFits(m.key) {
        LastOfRoot(named, m.val, m.trail);
        AndThenNothing(Walk(m.val, m.key, 1, false, '}', SlotsOf(s)).(ok := true));
      }
    } else {
      var more := PrintOpen(m.rest);
      Regroup(m.lead, QuotedKey(m.key), PrintColon(m.beforeColon, m.afterColon), Print(m.val), m.trail,
              [','] + more, "");
      assert PrintOpen(m) + "" == PrintOpen(m) && ([','] + more) + "" == [','] + more;
      MemberKey(s, m, Print(m.val) + (m.trail + ([','] + more)));
      if KeyFits(m.key) {
        ValueRoundTrip(named, m.val, m.trail, ',', more);
        var w := Walk(m.val, m.key, 1, false, ',', SlotsOf(s));
        if w.ok {
          assert After(named, w.at, ',') == s.(server := w.at.server, player := w.at.player);
          OpenMembers(s.(server := w.at.server, player := w.at.player), m.rest);
        }
      }
    }
  }

  lemma LastOfRoot(s: JState, v: Node, trail: string)
    requires AtValue(s) && |s.stack| == 1 && Printable(v) && AllSpace(trail)
    ensures var r, w := RunJson(s, Print(v) + trail), Walk(v, s.name, 1, false, '}', SlotsOf(s));
      r.trace == w.trace && (if w.ok then r.end.Go? else r.end == Return(1))
  {
    ValueAlone(s, v, trail);
    var w := Alone(v, s.name, 1, SlotsOf(s));
    if w.ok {
      assert trail + "" == trail;
      SkipGap(AfterValue(s, v, w.at), trail, "");
      assert w.trace + [] == w.trace;
    }
  }

  /** A document printed up to, but not including, its last brace. */
  lemma OpenDocument(root: Node, lead: string)
    requires root.Obj? && Printable(root) && AllSpace(lead)
    ensures var text := lead + Print(root);
      var r, w := RunJson(INITIAL_JSON, text[..|text| - 1]), WalkDocument(root);
      r.trace == w.trace && (if w.ok then r.end.Go? else r.end == Return(1))
  {
    var s := INITIAL_JSON.(mode := KeyName, stack := [false]);
    var inside := if root.members.NoMember? then root.gap else PrintOpen(root.members);
    if root.members.Member? {
      PrintOpenIsPrefix(root.members);
    }
    var text := lead + Print(root);
    assert text == lead + (['{'] + inside) + ['}'];
    assert text[..|text| - 1] == lead + (['{'] + inside);
    SkipGap(INITIAL_JSON, lead, ['{'] + inside);
    assert StepJson(INITIAL_JSON, '{') == Continue(s) by { assert INITIAL_JSON.stack + [false] == [false]; }
    ReadByte(INITIAL_JSON, '{', inside);
    if root.members.NoMember? {
      assert root.gap + "" == root.gap;
      SkipGap(s, root.gap, "");
    } else {
      OpenMembers(s, root.members);
    }
  }

  lemma Unstopped(s: State, bytes: string)
    ensures RunWith(_ => false, [], s, bytes) == RunAll(s, bytes)
  {
    StoppingCutsTheRun(_ => false, [], s, bytes);
    assert [] + RunAll(s, bytes).trace == RunAll(s, bytes).trace;
  }

  /** The callbacks and the return value are those of reading the document. */
  predicate Reads(r: Run<State>, root: Node)
    requires root.Obj?
  {
    r.trace == WalkDocument(root).trace && ExitCode(r.end) == if WalkDocument(root).ok then 0 else 1
  }

  /** A file that holds a printed document, cut into reads in any way. */
  lemma FileRoundTrip(root: Node, lead: string, trail: string, chunks: seq<string>)
    requires root.Obj? && Printable(root) && AllSpace(lead) && AllSpace(trail)
    requires Joined(chunks) == lead + Print(root) + trail
    requires forall j :: 0 <= j < |chunks| ==> chunks[j] != ""
    ensures Reads(Parse(_ => false, false, ReadsOf(chunks)), root)
  {
    ChunkIndependence(_ => false, false, chunks);
    Unstopped(Initial(false), Joined(chunks));
    BodyWithoutLength(Initial(false), Joined(chunks));
    DocumentRoundTrip(root, lead, trail);
  }

  // ---------------------------------------------------------------- empty values

  /** A field line whose value may be empty, as section 5 of RFC 9112 allows. */
  predicate GoodLine(h: Header) {
    && h.name != "" && FitsLine(h.name) && !IsSpace(h.name[0]) && ':' !in h.name && OnOneLine(h.gap)
    && (h.value != "" ==> FitsLine(h.value) && !IsSpace(h.value[0]))
  }

  function LineOf(h: Header): string { h.name + ([':'] + (h.gap + h.value)) }

  /** The headers that the parser makes of the lines: an empty value takes the whole next line for its value. */
  function Merged(lines: seq<Header>): seq<Header>
    decreases |lines|
  {
    if lines == [] then []
    else if lines[0].value == "" && |lines| > 1 then
      [Header(lines[0].name, lines[0].gap + CRLF, LineOf(lines[1]))] + Merged(lines[2..])
    else [lines[0]] + Merged(lines[1..])
  }

  /** Once every empty value has taken the next line, none is left at the end. */
  predicate EndsWithAValue(lines: seq<Header>)
    decreases |lines|
  {
    lines != [] ==>
      if lines[0].value == "" then |lines| > 1 && EndsWithAValue(lines[2..]) else EndsWithAValue(lines[1..])
  }

  /** Good lines, of which those that are taken for a value fit its buffer. */
  predicate Readable(lines: seq<Header>)
    decreases |lines|
  {
    lines != [] ==>
      && GoodLine(lines[0])
      && (if lines[0].value == "" then
            |lines| > 1 ==> GoodLine(lines[1]) && FitsLine(LineOf(lines[1])) && Readable(lines[2..])
          else Readable(lines[1..]))
  }

  lemma {:induction false} NonemptyIsReadable(lines: seq<Header>)
    requires forall h <- lines :: GoodHeader(h)
    ensures Readable(lines) && EndsWithAValue(lines) && Merged(lines) == lines
    decreases |lines|
  {
    if lines != [] {
      assert GoodHeader(lines[0]);
      NonemptyIsReadable(lines[1..]);
    }
  }

  lemma LineEnds(h: Header)
    ensures PrintHeader(h) == LineOf(h) + CRLF
  {
    Assoc(h.gap, h.value, CRLF);
    Assoc([':'], h.gap + h.value, CRLF);
    Assoc(h.name, [':'] + (h.gap + h.value), CRLF);
  }

  /** A line without a value, and what follows it. */
  lemma EmptyLine(h: Header, rest: string)
    requires h.value == ""
    ensures PrintHeader(h) + rest == h.name + ([':'] + (h.gap + CRLF + rest))
  {
    assert h.value + CRLF == CRLF;
    Assoc(h.name, [':'] + (h.gap + CRLF), rest);
    Assoc([':'], h.gap + CRLF, rest);
  }

  lemma PairJoins(first: Header, second: Header)
    requires first.value == ""
    ensures PrintHeader(first) + PrintHeader(second) ==
      PrintHeader(Header(first.name, first.gap + CRLF, LineOf(second)))
  {
    LineEnds(second);
    EmptyLine(first, LineOf(second) + CRLF);
  }

  /** An empty value and the next line are printed as one header. */
  lemma PairPrinted(lines: seq<Header>, rest: string)
    requires |lines| > 1 && lines[0].value == ""
    ensures PrintHeaders(lines) + rest == PrintHeader(Merged(lines)[0]) + (PrintHeaders(lines[2..]) + rest)
  {
    var first, second, tail := PrintHeader(lines[0]), PrintHeader(lines[1]), PrintHeaders(lines[2..]);
    assert lines[1..][1..] == lines[2..];
    assert PrintHeaders(lines) == first + (second + tail);
    PairJoins(lines[0], lines[1]);
    Assoc(first, second + tail, rest);
    Assoc(second, tail, rest);
    Assoc(first, second, tail + rest);
  }

  lemma FirstPrinted(lines: seq<Header>, rest: string)
    requires lines != []
    ensures PrintHeaders(lines) + rest == PrintHeader(lines[0]) + (PrintHeaders(lines[1..]) + rest)
  {
    Assoc(PrintHeader(lines[0]), PrintHeaders(lines[1..]), rest);
  }

  /** Any list of good lines leaves behind what the headers made of them announce: each empty value takes the whole next
      line for its value, and a Content-Length among the lines taken is lost. */
  lemma {:induction false} MergedLines(length: nat, lines: seq<Header>, rest: string)
    requires Readable(lines) && EndsWithAValue(lines)
    ensures RunAll(AtHeader(length), PrintHeaders(lines) + rest) ==
      RunAll(AtHeader(Announced(length, Merged(lines))), rest)
    decreases |lines|
  {
    if lines == [] {
      assert PrintHeaders(lines) + rest == rest;
    } else {
      var h := Merged(lines)[0];
      var next := NewContentLength(length, h.name, h.value);
      if lines[0].value == "" {
        assert Merged(lines)[1..] == Merged(lines[2..]);
        PairPrinted(lines, rest);
        HeaderLine(length, h, PrintHeaders(lines[2..]) + rest);
        MergedLines(next, lines[2..], rest);
      } else {
        assert Merged(lines)[1..] == Merged(lines[1..]);
        FirstPrinted(lines, rest);
        HeaderLine(length, h, PrintHeaders(lines[1..]) + rest);
        MergedLines(next, lines[1..], rest);
      }
    }
  }

  /** One line with a Content-Length and a value: either it is read, or it has been taken for another line's value. */
  lemma {:induction false} MergedLength(length: nat, lines: seq<Header>, i: nat)
    requires i < |lines| && IsLength(lines[i]) && lines[i].value != ""
    requires forall j :: 0 <= j < |lines| && j != i ==> !IsLength(lines[j])
    ensures var announced := Announced(length, Merged(lines));
      announced == Atoi(lines[i].value) % DWORD || announced == length
    decreases |lines|
  {
    var h := Merged(lines)[0];
    var next := NewContentLength(length, h.name, h.value);
    if lines[0].value == "" && |lines| > 1 {
      assert Merged(lines)[1..] == Merged(lines[2..]);
      if i >= 2 {
        MergedLength(next, lines[2..], i - 2);
      } else {
        NoMergedLength(next, lines[2..]);
      }
    } else {
      assert Merged(lines)[1..] == Merged(lines[1..]);
      if i > 0 {
        MergedLength(next, lines[1..], i - 1);
      } else {
        NoMergedLength(next, lines[1..]);
      }
    }
  }

  lemma {:induction false} NoMergedLength(length: nat, lines: seq<Header>)
    requires forall j :: 0 <= j < |lines| ==> !IsLength(lines[j])
    ensures Announced(length, Merged(lines)) == length
    decreases |lines|
  {
    if lines != [] {
      assert !IsLength(lines[0]);
      var h := Merged(lines)[0];
      if lines[0].value == "" && |lines| > 1 {
        assert Merged(lines)[1..] == Merged(lines[2..]);
        NoMergedLength(length, lines[2..]);
      } else {
        assert Merged(lines)[1..] == Merged(lines[1..]);
        NoMergedLength(length, lines[1..]);
      }
    }
  }

  // ---------------------------------------------------------------- responses

  /** The lines of a response for a body: one Content-Length announces the body's length. */
  predicate Announces(lines: seq<Header>, i: nat, body: string) {
    && i < |lines| && IsLength(lines[i]) && (forall j :: 0 <= j < |lines| && j != i ==> !IsLength(lines[j]))
    && |body| < 0x8000_0000 && lines[i].value == Decimal(|body|)
  }

  /** A document is read whole with its own length and with none. */
  lemma BodyIsRead(root: Node, lead: string, length: nat)
    requires root.Obj? && Printable(root) && AllSpace(lead)
    requires length == 0 || length == |lead + Print(root)| < DWORD
    ensures Reads(RunAll(State(Json, length, 0, INITIAL_JSON), lead + Print(root)), root)
  {
    var body := lead + Print(root);
    if length == 0 {
      assert body + "" == body;
      DocumentRoundTrip(root, lead, "");
      BodyWithoutLength(State(Json, 0, 0, INITIAL_JSON), body);
    } else {
      BodyWithLength(State(Json, length, 0, INITIAL_JSON), body);
      OpenDocument(root, lead);
    }
  }

  lemma ResponseIsRead(status: string, lines: seq<Header>, root: Node, lead: string, i: nat)
    requires root.Obj? && Printable(root) && AllSpace(lead) && GoodStatus(status)
    requires Readable(lines) && EndsWithAValue(lines) && Announces(lines, i, lead + Print(root))
    ensures Reads(RunAll(Initial(true), PrintResponse(status, lines, lead + Print(root))), root)
  {
    var body := lead + Print(root);
    StatusLine(status, PrintHeaders(lines) + (CRLF + body));
    assert Initial(true).(mode := HttpName) == AtHeader(0);
    MergedLines(0, lines, CRLF + body);
    MergedLength(0, lines, i);
    DecimalLength(|body|);
    var length := Announced(0, Merged(lines));
    BlankLine(length, body);
    BodyIsRead(root, lead, length);
  }

  /** A 200 response, cut into reads in any way, whose body is a printed document: although its last byte is never
      processed, it is read as a file that holds the body alone would be. Header values may be empty, as long as, once
      every empty value has taken the next line, none is left at the end. */
  lemma ResponseRoundTrip(status: string, lines: seq<Header>, root: Node, lead: string, i: nat, chunks: seq<string>)
    requires root.Obj? && Printable(root) && AllSpace(lead) && GoodStatus(status)
    requires Readable(lines) && EndsWithAValue(lines) && Announces(lines, i, lead + Print(root))
    requires forall j :: 0 <= j < |chunks| ==> chunks[j] != ""
    requires Joined(chunks) == PrintResponse(status, lines, lead + Print(root))
    ensures Reads(Parse(_ => false, true, ReadsOf(chunks)), root)
  {
    ChunkIndependence(_ => false, true, chunks);
    Unstopped(Initial(true), Joined(chunks));
    ResponseIsRead(status, lines, root, lead, i);
  }

  // ---------------------------------------------------------------- a body taken for a value

  predicate NoLineEnd(s: string) {
    forall k :: 0 < k < |s| ==> !(s[k - 1] == '\r' && s[k] == '\n')
  }

  /** Text without a line end is all value, until the buffer is full. */
  lemma {:induction false} ReadOpenValue(s: State, text: string)
    requires s.mode == HttpValue && |s.json.value| < GENERIC_BUFLEN && NoLineEnd(s.json.value + text)
    requires s.json.value == "" && text != "" ==> !IsSpace(text[0])
    ensures var r := RunAll(s, text);
      && r.trace == []
      && if |s.json.value| + |text| < GENERIC_BUFLEN then r.end == Go(SetValue(s, s.json.value + text))
         else r.end == Return(1)
    decreases |text|
  {
    var value := s.json.value;
    if text == "" {
      assert value + text == value;
    } else {
      assert (value + text)[|value|] == text[0];
      assert value != "" ==> (value + text)[|value| - 1] == value[|value| - 1];
      assert !EndsLine(value, text[0]);
      if |value| + 1 < GENERIC_BUFLEN {
        var next := SetValue(s, value + [text[0]]);
        assert value + [text[0]] + text[1..] == value + text;
        assert [text[0]] + text[1..] == text;
        RunByte(s, text[0], text[1..], next);
        ReadOpenValue(next, text[1..]);
      }
    }
  }

  /** At the value of a header line, with the length announced so far. */
  function AtLineValue(length: nat, name: string): State {
    SetName(AtHeader(length), name).(mode := HttpValue)
  }

  /** The last line's value is empty: the white space up to the text of the body is skipped. */
  lemma LastValueIsOpen(length: nat, h: Header, lead: string, text: string)
    requires GoodLine(h) && h.value == "" && AllSpace(lead)
    ensures RunAll(AtHeader(length), PrintHeader(h) + (CRLF + (lead + text))) ==
      RunAll(AtLineValue(length, h.name), text)
  {
    var s0 := AtHeader(length);
    var gap := h.gap + CRLF + (CRLF + lead);
    EmptyLine(h, CRLF + (lead + text));
    Assoc(CRLF, lead, text);
    Assoc(h.gap + CRLF, CRLF + lead, text);
    assert "" + h.name == h.name;
    ReadHeaderName(s0, h.name, [':'] + (gap + text));
    RunByte(SetName(s0, h.name), ':', gap + text, AtLineValue(length, h.name));
    SkipHeaderGap(AtLineValue(length, h.name), gap, text);
  }

  /** Every Content-Length line gives this length. */
  predicate LengthsSay(lines: seq<Header>, n: nat) {
    forall h <- lines :: IsLength(h) ==> h.value != "" && Atoi(h.value) % DWORD == n
  }

  /** With an empty value left at the end, the text of the body is read as that value; what has been announced by then
      is nothing new, or what a line says. */
  lemma {:induction false} LinesLeaveAValueOpen(length: nat, lines: seq<Header>, lead: string, text: string, n: nat)
    returns (announced: nat, open_: Header)
    requires Readable(lines) && !EndsWithAValue(lines) && AllSpace(lead)
    ensures RunAll(AtHeader(length), PrintHeaders(lines) + (CRLF + (lead + text))) ==
      RunAll(AtLineValue(announced, open_.name), text)
    ensures GoodLine(open_)
    ensures LengthsSay(lines, n) ==> !IsLength(open_) && (announced == length || announced == n)
    decreases |lines|
  {
    var rest := CRLF + (lead + text);
    var h := Merged(lines)[0];
    var next := NewContentLength(length, h.name, h.value);
    assert lines[0] in lines;
    if |lines| == 1 && h.value == "" {
      FirstPrinted(lines, rest);
      assert "" + rest == rest;
      LastValueIsOpen(length, h, lead, text);
      announced, open_ := length, h;
    } else if lines[0].value == "" {
      PairPrinted(lines, rest);
      HeaderLine(length, h, PrintHeaders(lines[2..]) + rest);
      announced, open_ := LinesLeaveAValueOpen(next, lines[2..], lead, text, n);
    } else {
      FirstPrinted(lines, rest);
      HeaderLine(length, h, PrintHeaders(lines[1..]) + rest);
      announced, open_ := LinesLeaveAValueOpen(next, lines[1..], lead, text, n);
    }
  }

  /** With an empty value left at the end, the blank line and a body without a line end become that value: nothing is
      reported, and the run returns 0 unless the body overflows the buffer. */
  lemma BodyIsSwallowed(length: nat, lines: seq<Header>, lead: string, text: string)
    requires Readable(lines) && !EndsWithAValue(lines)
    requires AllSpace(lead) && text != "" && !IsSpace(text[0]) && NoLineEnd(text)
    ensures var r := RunAll(AtHeader(length), PrintHeaders(lines) + (CRLF + (lead + text)));
      r.trace == [] && ExitCode(r.end) == (if |text| < GENERIC_BUFLEN then 0 else 1)
  {
    var announced, open_ := LinesLeaveAValueOpen(length, lines, lead, text, 0);
    assert "" + text == text;
    ReadOpenValue(AtLineValue(announced, open_.name), text);
  }

  lemma OneLineSays(lines: seq<Header>, i: nat, body: string)
    requires Announces(lines, i, body)
    ensures LengthsSay(lines, |body|)
  {
    DecimalLength(|body|);
  }

  lemma PrintedDocumentStarts(root: Node)
    requires root.Obj?
    ensures Print(root) != "" && !IsSpace(Print(root)[0])
  {
  }

  /** A response whose last header is empty, and a document with one field. */
  const EMPTY_LAST: seq<Header> := [Header("Content-Length", " ", "15"), Header("X", "", "")]

  const ONE_MEMBER: Members := Member("", "n", "", "", Word("x"), "", NoMember)

  const ONE_SERVER: Items := Item("", Obj("", ONE_MEMBER), "", NoItem)

  const ONE_FIELD: Node := Obj("", Member("", "g", "", "", Arr("", ONE_SERVER), "", NoMember))

  lemma OneMemberPrinted()
    ensures PrintMembers(ONE_MEMBER) == "\"n\":x}"
  {
  }

  lemma OneServerPrinted()
    ensures PrintItems(ONE_SERVER) == "{\"n\":x}]"
  {
    OneMemberPrinted();
    assert Print(ONE_SERVER.val) == "{\"n\":x}";
  }

  lemma OneFieldPrinted()
    ensures Print(ONE_FIELD) == "{\"g\":[{\"n\":x}]}"
  {
    OneServerPrinted();
    assert Print(ONE_FIELD.members.val) == "[{\"n\":x}]";
    assert PrintMembers(ONE_FIELD.members) == "\"g\":[{\"n\":x}]}";
  }

  lemma OneFieldReported()
    ensures |WalkDocument(ONE_FIELD).trace| == 1
  {
    var m, at := ONE_FIELD.members, Slots(0, 0);
    var items := m.val.items;
    assert |WalkMembers(items.val.members, 3, at).trace| == 1;
    var w := Walk(items.val, "", 2, true, ']', at);
    assert w.ok && |w.trace| == 1;
    assert WalkItems(items.rest, 2, w.at) == Walked(true, [], w.at);
    assert |WalkItems(items, 2, at).trace| == 1;
    assert Walk(m.val, m.key, 1, false, '}', at) == WalkItems(items, 2, at);
  }

  lemma EmptyLastIsReadable()
    ensures Readable(EMPTY_LAST) && !EndsWithAValue(EMPTY_LAST)
  {
    assert EMPTY_LAST[1..] == [EMPTY_LAST[1]] && EMPTY_LAST[1..][1..] == [];
    assert Readable(EMPTY_LAST[1..]) && !EndsWithAValue(EMPTY_LAST[1..]);
  }

  const OK_STATUS := "HTTP/1.1 200 OK"

  lemma OkStatusIsGood()
    ensures GoodStatus(OK_STATUS)
  {
    assert OK_STATUS[|OK_STATUS| - 6..] == "200 OK";
  }

  lemma OneFieldHasNoLineEnd()
    ensures NoLineEnd(Print(ONE_FIELD))
  {
    OneFieldPrinted();
    assert '\r' !in Print(ONE_FIELD);
  }

  /** It returns 0 and reports nothing. */
  lemma EmptyLastHeaderLosesTheBody()
    ensures Print(ONE_FIELD) == "{\"g\":[{\"n\":x}]}" && |WalkDocument(ONE_FIELD).trace| == 1
    ensures var r := RunAll(Initial(true), PrintResponse(OK_STATUS, EMPTY_LAST, Print(ONE_FIELD)));
      r.trace == [] && ExitCode(r.end) == 0
  {
    OneFieldPrinted();
    OneFieldReported();
    EmptyLastIsReadable();
    OkStatusIsGood();
    OneFieldHasNoLineEnd();
    var text := Print(ONE_FIELD);
    StatusLine(OK_STATUS, PrintHeaders(EMPTY_LAST) + (CRLF + text));
    assert Initial(true).(mode := HttpName) == AtHeader(0);
    assert "" + text == text;
    BodyIsSwallowed(0, EMPTY_LAST, "", text);
  }
}
