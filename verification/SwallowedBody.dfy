/** A response whose last header has no value, and a body with line ends: what reaches the JSON states is a piece of the
    body that begins a line. */
module SwallowedBody {
  import A = Acceptance
  import opened CStrings
  import opened ParserSpec
  import opened ParserInvariants
  import opened ParserRuns
  import opened Document
  import opened RoundTrip
  import opened HttpFraming

  // ---------------------------------------------------------------- lines of a text

  predicate EndsLineThere(s: string) {
    |s| >= 2 && s[|s| - 2] == '\r' && s[|s| - 1] == '\n'
  }

  /** What is left of a text without the white space at its end. */
  function BeforeSpaces(s: string): (r: string)
    ensures r <= s && (r != "" ==> !IsSpace(r[|r| - 1])) && AllSpace(s[|r|..])
  {
    if s != "" && IsSpace(s[|s| - 1]) then BeforeSpaces(s[..|s| - 1]) else s
  }

  predicate StartsWithBrace(s: string) {
    SkipSpaces(s) != "" && SkipSpaces(s)[0] == '{'
  }

  predicate EndsWithSeparator(s: string) {
    var r := BeforeSpaces(s);
    r != "" && (r[|r| - 1] == ',' || r[|r| - 1] == '[')
  }

  /** A brace that opens a line comes after a comma or an opening bracket. */
  predicate BracesFollow(text: string) {
    forall k :: 0 <= k <= |text| && EndsLineThere(text[..k]) && StartsWithBrace(text[k..]) ==>
      EndsWithSeparator(text[..k])
  }

  // ---------------------------------------------------------------- two runs side by side

  /** `q` is what `d` would be if the brackets `below` were not there. */
  predicate Above(d: JState, q: JState, below: seq<bool>) {
    && q.stack != [] && d.stack == below + q.stack
    && q == d.(stack := q.stack, server := q.server, player := q.player)
  }

  /** The brackets above have been closed: `d` is back in an array, and `q` at the end of its root. */
  predicate BackBelow(d: JState, q: JState, below: seq<bool>) {
    d.stack == below && d.mode == Value && !d.inQuote && q.stack == [] && q.mode == RootEnd && !q.inQuote
  }

  /** `q` goes on like `d`, or both have closed what is above. */
  predicate GoesAlong(d: Reaction<JState>, q: Reaction<JState>, below: seq<bool>) {
    d.next.Go? ==>
      && q.next.Go?
      && (Above(d.next.state, q.next.state, below) || BackBelow(d.next.state, q.next.state, below))
  }

  predicate IsInArray(below: seq<bool>) {
    below != [] && below[|below| - 1]
  }

  lemma ClosingGoesAlong(d: JState, q: JState, below: seq<bool>, mode: JMode)
    requires Above(d, q, below) && IsInArray(below) && !d.inQuote && (|q.stack| == 1 ==> mode == Value)
    ensures var d', q' := Closed(d, mode), Closed(q, mode);
      Above(d', q', below) || BackBelow(d', q', below)
  {
    var rest := q.stack[..|q.stack| - 1];
    assert d.stack[..|d.stack| - 1] == below + rest;
    assert rest == [] ==> below + rest == below;
  }

  lemma ClosedObjectGoesAlong(d: JState, q: JState, below: seq<bool>)
    requires Above(d, q, below) && IsInArray(below) && d.mode == Next && !d.inQuote && !q.stack[|q.stack| - 1]
    ensures GoesAlong(OnNext(d, '}'), OnNext(q, '}'), below)
  {
    var rest := q.stack[..|q.stack| - 1];
    var mode := if rest == [] || rest[|rest| - 1] then Value else KeyName;
    assert d.stack[..|d.stack| - 1] == below + rest;
    assert rest == [] ==> below + rest == below;
    assert rest != [] ==> (below + rest)[|below + rest| - 1] == rest[|rest| - 1];
    ObjectClosed(d);
    ObjectClosed(q);
    ClosingGoesAlong(CountClosedObject(d), CountClosedObject(q), below, mode);
  }

  lemma ObjectClosed(s: JState)
    requires s.stack != [] && !s.stack[|s.stack| - 1]
    ensures var outer := s.stack[..|s.stack| - 1];
      OnNext(s, '}') == Continue(Closed(CountClosedObject(s),
                                        if outer != [] && outer[|outer| - 1] then Value else KeyName))
  {
  }

  lemma NextGoesAlong(d: JState, q: JState, below: seq<bool>, c: char)
    requires Above(d, q, below) && IsInArray(below) && d.mode == Next && !d.inQuote
    ensures GoesAlong(OnNext(d, c), OnNext(q, c), below)
  {
    assert d.stack[|d.stack| - 1] == q.stack[|q.stack| - 1];
    if q.stack[|q.stack| - 1] && c == ']' {
      ClosingGoesAlong(d, q, below, Value);
    } else if !q.stack[|q.stack| - 1] && c == '}' {
      ClosedObjectGoesAlong(d, q, below);
    }
  }

  lemma OpeningGoesAlong(d: JState, q: JState, below: seq<bool>, c: char)
    requires Above(d, q, below) && IsInArray(below) && d.mode == Value && !d.inQuote
    ensures GoesAlong(OnValue(d, c), OnValue(q, c), below)
  {
    assert d.stack + [c == '['] == below + (q.stack + [c == '[']);
    NextGoesAlong(d.(mode := Next), q.(mode := Next), below, c);
  }

  lemma KeyGoesAlong(d: JState, q: JState, below: seq<bool>, c: char)
    requires Above(d, q, below) && IsInArray(below) && d.mode == KeyName
    ensures GoesAlong(OnKeyName(d, c), OnKeyName(q, c), below)
  {
    if !d.inQuote {
      NextGoesAlong(d.(mode := Next), q.(mode := Next), below, c);
    }
  }

  lemma WordGoesAlong(d: JState, q: JState, below: seq<bool>, c: char)
    requires Above(d, q, below) && IsInArray(below) && d.mode == ReadValue && !d.inQuote
    ensures GoesAlong(OnReadWord(d, c), OnReadWord(q, c), below)
  {
    NextGoesAlong(Cleared(d), Cleared(q), below, c);
  }

  lemma QuotedGoesAlong(d: JState, q: JState, below: seq<bool>, c: char)
    requires Above(d, q, below) && d.mode == ReadValue && d.inQuote
    ensures GoesAlong(OnReadQuoted(d, c), OnReadQuoted(q, c), below)
  {
  }

  lemma StepGoesAlong(d: JState, q: JState, below: seq<bool>, c: char)
    requires Above(d, q, below) && IsInArray(below) && GoodJson(d)
    ensures GoesAlong(StepJson(d, c), StepJson(q, c), below)
  {
    match d.mode
    case KeyName => KeyGoesAlong(d, q, below, c);
    case KeySep =>
    case Value => OpeningGoesAlong(d, q, below, c);
    case ReadValue =>
      if d.inQuote {
        QuotedGoesAlong(d, q, below, c);
      } else {
        WordGoesAlong(d, q, below, c);
      }
    case Next => NextGoesAlong(d, q, below, c);
    case _ =>
  }

  /** The run from `d` over the text closes all brackets. */
  predicate Completes(d: JState, text: string) {
    var r := RunJson(d, text);
    r.end.Go? && r.end.state.stack == []
  }

  lemma CompletesNext(d: JState, text: string)
    requires GoodJson(d) && Completes(d, text) && text != ""
    ensures var r := StepJson(d, text[0]); r.next.Go? && GoodJson(r.next.state) && Completes(r.next.state, text[1..])
  {
    JsonKeepsGood(d, text[0]);
  }

  /** After the root of `q`, the rest of what `d` reads cannot follow. */
  lemma {:induction false} NothingFollows(d: JState, q: JState, below: seq<bool>, text: string)
    requires BackBelow(d, q, below) && IsInArray(below) && GoodJson(d) && Completes(d, text)
    ensures RunJson(q, text).end == Return(1)
    decreases |text|
  {
    if text != "" {
      CompletesNext(d, text);
      if IsSpace(text[0]) {
        assert StepJson(d, text[0]) == Continue(d) && StepJson(q, text[0]) == Continue(q);
        NothingFollows(d, q, below, text[1..]);
      } else {
        assert text[0] != '}';
      }
    }
  }

  lemma {:induction false} PieceIsRejected(d: JState, q: JState, below: seq<bool>, text: string)
    requires Above(d, q, below) && IsInArray(below) && GoodJson(d) && Completes(d, text)
    ensures RunJson(q, text).end == Return(1)
    decreases |text|
  {
    if text != "" {
      CompletesNext(d, text);
      StepGoesAlong(d, q, below, text[0]);
      var d', q' := StepJson(d, text[0]).next.state, StepJson(q, text[0]).next.state;
      if Above(d', q', below) {
        PieceIsRejected(d', q', below, text[1..]);
      } else {
        NothingFollows(d', q', below, text[1..]);
      }
    }
  }

  // ---------------------------------------------------------------- a piece that begins a line

  lemma {:induction false} RunSplits(s: JState, a: string, b: string)
    requires RunJson(s, a).end.Go?
    ensures RunJson(s, a + b).end == RunJson(RunJson(s, a).end.state, b).end
    decreases |a|
  {
    if a == "" {
      assert a + b == b;
    } else {
      assert (a + b)[1..] == a[1..] + b;
      RunSplits(StepJson(s, a[0]).next.state, a[1..], b);
    }
  }

  lemma {:induction false} RunKeepsGood(s: JState, text: string)
    requires GoodJson(s)
    ensures RunJson(s, text).end.Go? ==> GoodJson(RunJson(s, text).end.state)
    decreases |text|
  {
    if text != "" {
      JsonKeepsGood(s, text[0]);
      if StepJson(s, text[0]).next.Go? {
        RunKeepsGood(StepJson(s, text[0]).next.state, text[1..]);
      }
    }
  }

  /** White space that holds a line end is not accepted within quotes, and changes nothing outside. */
  lemma {:induction false} GapIsOutside(s: JState, gap: string)
    requires GoodJson(s) && AllSpace(gap) && RunJson(s, gap).end.Go?
    ensures !s.inQuote ==> RunJson(s, gap).end == Go(s)
    ensures '\r' in gap ==> !s.inQuote
    decreases |gap|
  {
    if gap != "" {
      JsonKeepsGood(s, gap[0]);
      var next := StepJson(s, gap[0]).next.state;
      GapIsOutside(next, gap[1..]);
      assert gap == [gap[0]] + gap[1..];
    }
  }

  /** After a comma or an opening bracket, outside quotes: in an array, or before a key. */
  lemma SeparatorLeads(s: JState, c: char)
    requires GoodJson(s) && (c == ',' || c == '[')
    requires StepJson(s, c).next.Go? && !StepJson(s, c).next.state.inQuote
    ensures var next := StepJson(s, c).next.state;
      next.stack != [] && (next.mode == KeyName || (next.mode == Value && InArray(next)))
  {
  }

  lemma LineStartsInArray(a: string, d: JState)
    requires RunJson(INITIAL_JSON, a).end == Go(d) && EndsLineThere(a) && EndsWithSeparator(a)
    ensures GoodJson(d) && !d.inQuote && d.stack != [] && (d.mode == KeyName || (d.mode == Value && InArray(d)))
  {
    var t := BeforeSpaces(a);
    var before, c, gap := t[..|t| - 1], t[|t| - 1], a[|t|..];
    assert a == t + gap && t == before + [c];
    assert gap[|gap| - 2] == '\r' by {
      assert |gap| >= 2 by { assert IsSpace(a[|a| - 1]) && IsSpace(a[|a| - 2]) && !IsSpace(a[|t| - 1]); }
      assert gap[|gap| - 2] == a[|a| - 2];
    }
    GoesOnFrom(INITIAL_JSON, t, gap);
    GoesOnFrom(INITIAL_JSON, before, [c]);
    RunSplits(INITIAL_JSON, t, gap);
    RunSplits(INITIAL_JSON, before, [c]);
    var d0, d1 := RunJson(INITIAL_JSON, before).end.state, RunJson(INITIAL_JSON, t).end.state;
    RunKeepsGood(INITIAL_JSON, before);
    RunKeepsGood(INITIAL_JSON, t);
    GapIsOutside(d1, gap);
    assert RunJson(d0, [c]).end == StepJson(d0, c).next by { assert [c][1..] == ""; }
    SeparatorLeads(d0, c);
  }

  lemma {:induction false} SpacesSkipped(s: string)
    ensures |SkipSpaces(s)| <= |s| && s == s[..|s| - |SkipSpaces(s)|] + SkipSpaces(s)
    ensures AllSpace(s[..|s| - |SkipSpaces(s)|]) && (SkipSpaces(s) != "" ==> !IsSpace(SkipSpaces(s)[0]))
  {
    if s != "" && IsSpace(s[0]) {
      SpacesSkipped(s[1..]);
      var n := |s| - |SkipSpaces(s)|;
      assert s[..n] == [s[0]] + s[1..][..n - 1];
    }
  }

  lemma BraceIsRejected(d: JState, text: string)
    requires GoodJson(d) && !d.inQuote && d.stack != [] && (d.mode == KeyName || (d.mode == Value && InArray(d)))
    requires text != "" && text[0] == '{' && Completes(d, text)
    ensures RunJson(INITIAL_JSON, text).end == Return(1)
  {
    CompletesNext(d, text);
    var inner, root := Inner(d, false), INITIAL_JSON.(mode := KeyName, stack := [false]);
    assert INITIAL_JSON.stack + [false] == [false];
    assert StepJson(INITIAL_JSON, '{') == Continue(root) && StepJson(d, '{') == Continue(inner);
    PieceIsRejected(inner, root, d.stack, text[1..]);
  }

  /** What is left of an accepted text after a line end, read as a document of its own, reports nothing or is
      rejected. */
  lemma RestIsRejected(a: string, b: string)
    requires Completes(INITIAL_JSON, a + b) && EndsLineThere(a)
    requires StartsWithBrace(b) ==> EndsWithSeparator(a)
    ensures RunJson(INITIAL_JSON, b).trace == [] || RunJson(INITIAL_JSON, b).end == Return(1)
  {
    SpacesSkipped(b);
    var text := SkipSpaces(b);
    var gap := b[..|b| - |text|];
    SkipGap(INITIAL_JSON, gap, text);
    if text != "" && text[0] == '{' {
      GoesOnFrom(INITIAL_JSON, a, b);
      RunSplits(INITIAL_JSON, a, b);
      var d := RunJson(INITIAL_JSON, a).end.state;
      LineStartsInArray(a, d);
      SkipGap(d, gap, text);
      BraceIsRejected(d, text);
    }
  }

  // ---------------------------------------------------------------- no line of a document names a length

  predicate NamesLength(name: string) {
    EqualNoCase(CStr(name), "Content-Length")
  }

  lemma LetterOfAWord(s: JState, c: char)
    requires GoodJson(s) && !s.inQuote && StepJson(s, c).next.Go?
    ensures IsWordChar(c) ==> var next := StepJson(s, c).next.state; next.mode == ReadValue && !next.inQuote
    ensures c != NUL
  {
  }

  lemma {:induction false} LettersAreAWord(s: JState, t: string)
    requires GoodJson(s) && !s.inQuote && AllWordChars(CStr(t)) && RunJson(s, t).end.Go?
    requires s.mode == ReadValue || CStr(t) != ""
    ensures var next := RunJson(s, t).end.state; next.mode == ReadValue && !next.inQuote
    decreases |t|
  {
    if t != "" {
      JsonKeepsGood(s, t[0]);
      LetterOfAWord(s, t[0]);
      assert CStr(t)[0] == t[0] && CStr(t)[1..] == CStr(t[1..]);
      LettersAreAWord(StepJson(s, t[0]).next.state, t[1..]);
    }
  }

  lemma LengthIsAWord(name: string)
    requires NamesLength(name)
    ensures AllWordChars(CStr(name)) && CStr(name) != ""
  {
    var w, n := CStr(name), "Content-Length";
    forall i | 0 <= i < |w| ensures IsWordChar(w[i]) {
      assert LowerChar(w[i]) == LowerChar(n[i]);
      assert w[i] == '-' || 'a' <= LowerChar(w[i]) <= 'z';
    }
  }

  /** No colon follows it in a text that the parser accepts. */
  lemma NoLengthBeforeAColon(d0: JState, name: string)
    requires GoodJson(d0) && !d0.inQuote && RunJson(d0, name).end.Go? && NamesLength(name)
    ensures StepJson(RunJson(d0, name).end.state, ':').next.Return?
  {
    LengthIsAWord(name);
    LettersAreAWord(d0, name);
  }

  // ---------------------------------------------------------------- the header states on a body

  /** With more bytes announced than there are, the JSON states see all of them. */
  lemma {:induction false} BodyWithinLength(s: State, body: string)
    requires s.mode == Json && s.jsonLength + |body| < s.contentLength < DWORD
    ensures RunAll(s, body).trace == RunJson(s.json, body).trace
    ensures RunJson(s.json, body).end.Return? ==> RunAll(s, body).end == Return(RunJson(s.json, body).end.code)
    ensures RunJson(s.json, body).end.Go? ==> RunAll(s, body).end.Go?
    decreases |body|
  {
    if body != "" {
      var r := StepJson(s.json, body[0]);
      if r.next.Go? {
        BodyWithinLength(Step(s, body[0]).next.state, body[1..]);
      }
    }
  }

  /** The part of the body read so far is `a`, and `d` is where a parser of the body alone would be. */
  predicate Reading(s: State, a: string, d: JState, b: string) {
    && s.json == INITIAL_JSON.(name := s.json.name, value := s.json.value) && s.jsonLength == 0
    && (s.contentLength == 0 || |b| <= s.contentLength < DWORD)
    && RunJson(INITIAL_JSON, a).end == Go(d) && GoodJson(d) && Completes(d, b) && BracesFollow(a + b)
  }

  predicate SameEnd(a: string, t: string) {
    t != "" ==> a != "" && a[|a| - 1] == t[|t| - 1]
  }

  predicate InLineValue(s: State, a: string, d: JState, b: string) {
    Reading(s, a, d, b) && s.mode == HttpValue && !NamesLength(s.json.name) && SameEnd(a, s.json.value)
  }

  /** The line began in `d0`. */
  predicate InLineName(s: State, a: string, d0: JState, d: JState, b: string) {
    && Reading(s, a, d, b) && s.mode == HttpName && s.json.value == "" && SameEnd(a, s.json.name)
    && GoodJson(d0) && !d0.inQuote && RunJson(d0, s.json.name).end == Go(d)
  }

  /** Nothing is reported, or the run fails. */
  predicate Lost(r: Run<State>) {
    r.trace == [] || r.end == Return(1)
  }

  lemma ReadingNext(s: State, a: string, d: JState, b: string)
    requires Reading(s, a, d, b) && b != ""
    ensures var r := StepJson(d, b[0]);
      && r.next.Go? && GoodJson(r.next.state) && Completes(r.next.state, b[1..])
      && RunJson(INITIAL_JSON, a + [b[0]]).end == Go(r.next.state) && BracesFollow(a + [b[0]] + b[1..])
  {
    CompletesNext(d, b);
    RunSplits(INITIAL_JSON, a, [b[0]]);
    assert [b[0]][1..] == "";
    assert a + [b[0]] + b[1..] == a + b;
  }

  /** The blank line, or what is taken for it. */
  lemma BodyBegins(length: nat, a: string, b: string)
    requires Completes(INITIAL_JSON, a + b) && EndsLineThere(a) && BracesFollow(a + b)
    requires length == 0 || |b| < length < DWORD
    ensures Lost(RunAll(State(Json, length, 0, INITIAL_JSON), b))
  {
    assert (a + b)[..|a|] == a && (a + b)[|a|..] == b;
    RestIsRejected(a, b);
    if length == 0 {
      BodyWithoutLength(State(Json, length, 0, INITIAL_JSON), b);
    } else {
      BodyWithinLength(State(Json, length, 0, INITIAL_JSON), b);
    }
  }

  lemma WholeCompletes(a: string, d: JState, b: string)
    requires RunJson(INITIAL_JSON, a).end == Go(d) && Completes(d, b)
    ensures Completes(INITIAL_JSON, a + b)
  {
    RunSplits(INITIAL_JSON, a, b);
  }

  lemma LineEndsValue(s: State, a: string, d: JState, b: string)
    requires InLineValue(s, a, d, b) && b != "" && EndsLine(s.json.value, b[0])
    ensures Step(s, b[0]).next.Go?
    ensures var next, d' := Step(s, b[0]).next.state, StepJson(d, b[0]).next.state;
      InLineName(next, a + [b[0]], d', d', b[1..])
  {
    ReadingNext(s, a, d, b);
    var d' := StepJson(d, b[0]).next.state;
    assert RunJson(d', "").end == Go(d');
  }

  lemma ValueGoesOn(s: State, a: string, d: JState, b: string)
    requires InLineValue(s, a, d, b) && b != "" && !EndsLine(s.json.value, b[0]) && Step(s, b[0]).next.Go?
    ensures InLineValue(Step(s, b[0]).next.state, a + [b[0]], StepJson(d, b[0]).next.state, b[1..])
  {
    ReadingNext(s, a, d, b);
  }

  lemma {:induction false} ValueLosesTheBody(s: State, a: string, d: JState, b: string)
    requires InLineValue(s, a, d, b)
    ensures Lost(RunAll(s, b))
    decreases |b|
  {
    if b != "" && Step(s, b[0]).next.Go? {
      var c, rest, next := b[0], b[1..], Step(s, b[0]).next.state;
      var a', d' := a + [c], StepJson(d, c).next.state;
      assert b == [c] + rest;
      RunByte(s, c, rest, next);
      if EndsLine(s.json.value, c) {
        LineEndsValue(s, a, d, b);
        NameLosesTheBody(next, a', d', d', rest);
      } else {
        ValueGoesOn(s, a, d, b);
        ValueLosesTheBody(next, a', d', rest);
      }
    }
  }

  lemma NameGrows(s: State, a: string, d0: JState, d: JState, b: string)
    requires InLineName(s, a, d0, d, b) && b != ""
    requires Step(s, b[0]) == Continue(SetName(s, s.json.name + [b[0]]))
    ensures InLineName(SetName(s, s.json.name + [b[0]]), a + [b[0]], d0, StepJson(d, b[0]).next.state, b[1..])
  {
    ReadingNext(s, a, d, b);
    RunSplits(d0, s.json.name, [b[0]]);
    assert [b[0]][1..] == "";
  }

  lemma NameSkips(s: State, a: string, d0: JState, d: JState, b: string)
    requires InLineName(s, a, d0, d, b) && b != "" && s.json.name == "" && IsSpace(b[0])
    ensures InLineName(s, a + [b[0]], d, d, b[1..])
  {
    ReadingNext(s, a, d, b);
    assert StepJson(d, b[0]) == Continue(d);
  }

  lemma NameEnds(s: State, a: string, d0: JState, d: JState, b: string)
    requires InLineName(s, a, d0, d, b) && b != "" && b[0] == ':'
    ensures InLineValue(s.(mode := HttpValue), a + [b[0]], StepJson(d, b[0]).next.state, b[1..])
  {
    ReadingNext(s, a, d, b);
    if NamesLength(s.json.name) {
      NoLengthBeforeAColon(d0, s.json.name);
    }
  }

  lemma LineEndsHead(s: State, a: string, d0: JState, d: JState, b: string)
    requires InLineName(s, a, d0, d, b) && b != "" && EndsLine(s.json.name, b[0])
    ensures Lost(RunAll(State(Json, s.contentLength, 0, INITIAL_JSON), b[1..]))
  {
    ReadingNext(s, a, d, b);
    WholeCompletes(a + [b[0]], StepJson(d, b[0]).next.state, b[1..]);
    BodyBegins(s.contentLength, a + [b[0]], b[1..]);
  }

  lemma {:induction false} NameLosesTheBody(s: State, a: string, d0: JState, d: JState, b: string)
    requires InLineName(s, a, d0, d, b)
    ensures Lost(RunAll(s, b))
    decreases |b|
  {
    if b != "" && Step(s, b[0]).next.Go? {
      var c, rest, name := b[0], b[1..], s.json.name;
      var a', d' := a + [c], StepJson(d, c).next.state;
      assert b == [c] + rest;
      RunByte(s, c, rest, Step(s, c).next.state);
      if c != '\r' && EndsLine(name, c) {
        LineEndsHead(s, a, d0, d, b);
      } else if c != '\r' && IsSpace(c) && name == "" {
        NameSkips(s, a, d0, d, b);
        NameLosesTheBody(s, a', d, d, rest);
      } else if c == ':' {
        NameEnds(s, a, d0, d, b);
        ValueLosesTheBody(s.(mode := HttpValue), a', d', rest);
      } else {
        NameGrows(s, a, d0, d, b);
        NameLosesTheBody(SetName(s, name + [c]), a', d0, d', rest);
      }
    }
  }

  // ---------------------------------------------------------------- responses

  lemma BodyIsOpen(length: nat, h: Header, root: Node)
    requires root.Obj? && Printable(root) && WalkDocument(root).ok && BracesFollow(Print(root))
    requires GoodLine(h) && !IsLength(h) && (length == 0 || |Print(root)| <= length < DWORD)
    ensures InLineValue(AtLineValue(length, h.name), "", INITIAL_JSON, Print(root))
  {
    var text := Print(root);
    DocumentRoundTrip(root, "", "");
    assert "" + text + "" == text && "" + text == text;
    RunKeepsGood(INITIAL_JSON, text);
    assert RunJson(INITIAL_JSON, "").end == Go(INITIAL_JSON);
  }

  /** An accepted document whose lines are swallowed one by one is not read, if no brace opens a line except after a
      comma or an opening bracket. */
  lemma LinesAreSwallowed(lines: seq<Header>, root: Node, lead: string, i: nat)
    requires root.Obj? && Printable(root) && AllSpace(lead) && WalkDocument(root).ok && BracesFollow(Print(root))
    requires Readable(lines) && !EndsWithAValue(lines) && Announces(lines, i, lead + Print(root))
    ensures Lost(RunAll(AtHeader(0), PrintHeaders(lines) + (CRLF + (lead + Print(root)))))
  {
    var text := Print(root);
    OneLineSays(lines, i, lead + text);
    var announced, open_ := LinesLeaveAValueOpen(0, lines, lead, text, |lead + text|);
    BodyIsOpen(announced, open_, root);
    ValueLosesTheBody(AtLineValue(announced, open_.name), "", INITIAL_JSON, text);
  }

  /** The condition on empty values is exact, for a document that reports something, and that holds no line end, or is
      accepted and opens no line with a brace except after a comma or an opening bracket: the response is read as the
      document if and only if no empty value is left at the end. */
  lemma ResponseIsReadIff(status: string, lines: seq<Header>, root: Node, lead: string, i: nat, chunks: seq<string>)
    requires root.Obj? && Printable(root) && AllSpace(lead) && GoodStatus(status)
    requires Readable(lines) && Announces(lines, i, lead + Print(root)) && WalkDocument(root).trace != []
    requires NoLineEnd(Print(root)) || (WalkDocument(root).ok && BracesFollow(Print(root)))
    requires forall j :: 0 <= j < |chunks| ==> chunks[j] != ""
    requires Joined(chunks) == PrintResponse(status, lines, lead + Print(root))
    ensures Reads(Parse(_ => false, true, ReadsOf(chunks)), root) <==> EndsWithAValue(lines)
  {
    if EndsWithAValue(lines) {
      ResponseRoundTrip(status, lines, root, lead, i, chunks);
    } else {
      ChunkIndependence(_ => false, true, chunks);
      Unstopped(Initial(true), Joined(chunks));
      StatusLine(status, PrintHeaders(lines) + (CRLF + (lead + Print(root))));
      assert Initial(true).(mode := HttpName) == AtHeader(0);
      PrintedDocumentStarts(root);
      if NoLineEnd(Print(root)) {
        BodyIsSwallowed(0, lines, lead, Print(root));
      } else {
        LinesAreSwallowed(lines, root, lead, i);
      }
    }
  }

  // ---------------------------------------------------------------- a body that is read all the same

  /** The document with one field, and then, on a line of its own after a blank one, the same document as a member. */
  const TWIN: Node :=
    Obj("", Member("", "g", "", "", Arr("", ONE_SERVER), "",
      Member("", "a", "", CRLF + CRLF, ONE_FIELD, "", NoMember)))

  const TWIN_LAST: Members := TWIN.members.rest

  /** What the empty value takes. */
  const TWIN_FRONT := "{\"g\":[{\"n\":x}],\"a\":"

  lemma TwinLastIsPrinted(after: string)
    requires after == CRLF + (CRLF + (Print(ONE_FIELD) + "}"))
    ensures PrintMembers(TWIN_LAST) == QuotedKey("a") + ([':'] + after)
  {
    var q, colon, p := QuotedKey("a"), PrintColon("", CRLF + CRLF), Print(ONE_FIELD);
    assert "" + q == q;
    assert colon == [':'] + (CRLF + CRLF);
    assert PrintMembers(TWIN_LAST) == q + colon + p + "" + "}";
    assert q + colon + p + "" == q + colon + p;
    Assoc(q + colon, p, "}");
    Assoc(q, colon, p + "}");
    Assoc([':'], CRLF + CRLF, p + "}");
    Assoc(CRLF, CRLF, p + "}");
  }

  lemma TwinFirstIsPrinted()
    ensures PrintMembers(TWIN.members) == "\"g\":[{\"n\":x}]" + ([','] + PrintMembers(TWIN_LAST))
  {
    var m := TWIN.members;
    OneServerPrinted();
    assert Print(m.val) == ['['] + PrintItems(ONE_SERVER) == "[{\"n\":x}]";
    assert QuotedKey("g") == "\"g\"" && PrintColon("", "") == ":";
    assert "" + QuotedKey("g") + PrintColon("", "") + Print(m.val) + "" == "\"g\":[{\"n\":x}]";
  }

  lemma FrontThen(a: string, b: string, c: string, d: string, e: string, rest: string)
    ensures a + (b + (c + (d + (e + rest)))) == (a + b + c + d + e) + rest
  {
    Assoc(a + b + c + d, e, rest);
    Assoc(a + b + c, d, e + rest);
    Assoc(a + b, c, d + (e + rest));
    Assoc(a, b, c + (d + (e + rest)));
  }

  lemma FrontIsPrinted()
    ensures "{" + "\"g\":[{\"n\":x}]" + "," + QuotedKey("a") + ":" == TWIN_FRONT
  {
  }

  lemma TwinIsPrinted()
    ensures Print(TWIN) == TWIN_FRONT + (CRLF + (CRLF + (Print(ONE_FIELD) + "}")))
  {
    var first, after := "\"g\":[{\"n\":x}]", CRLF + (CRLF + (Print(ONE_FIELD) + "}"));
    TwinFirstIsPrinted();
    TwinLastIsPrinted(after);
    Assoc(first, [','], PrintMembers(TWIN_LAST));
    FrontThen("{", first, ",", QuotedKey("a"), ":", after);
    FrontIsPrinted();
  }

  /** The inner document lies too deep to be reported. */
  lemma InnerIsSilent(at: Slots)
    ensures Walk(ONE_FIELD, "a", 1, false, '}', at) == Walked(true, [], at)
  {
    var item := ONE_SERVER.val;
    assert WalkMembers(ONE_MEMBER.rest, 4, at) == Walked(true, [], at);
    assert WalkMembers(ONE_MEMBER, 4, at) == Walked(true, [], at);
    assert Walk(item, "", 3, true, ']', at) == Walked(true, [], at);
    assert WalkItems(ONE_SERVER.rest, 3, at) == Walked(true, [], at);
    assert WalkItems(ONE_SERVER, 3, at) == Walked(true, [], at);
    assert Walk(ONE_FIELD.members.val, "g", 2, false, '}', at) == Walked(true, [], at);
    assert WalkMembers(ONE_FIELD.members.rest, 2, at) == Walked(true, [], at);
    assert WalkMembers(ONE_FIELD.members, 2, at) == Walked(true, [], at);
  }

  lemma BothAreAccepted()
    ensures WalkDocument(ONE_FIELD).ok && WalkDocument(TWIN).ok
  {
    assert A.MembersFit(ONE_MEMBER) && A.DepthOfItems(ONE_SERVER) == 1 && A.ItemsComeLast(ONE_SERVER);
    assert A.Depth(ONE_FIELD) == 3 && A.Accepted(ONE_FIELD);
    assert A.DepthOfMembers(TWIN_LAST) == 3 && A.MembersFit(TWIN_LAST) && A.MembersComeLast(TWIN_LAST);
    assert A.DepthOfMembers(TWIN.members) == 3 && A.MembersFit(TWIN.members) && A.MembersComeLast(TWIN.members);
    A.WalkOfDocument(ONE_FIELD);
    A.WalkOfDocument(TWIN);
  }

  lemma TwinIsRead()
    ensures WalkDocument(TWIN).ok && WalkDocument(ONE_FIELD).ok
    ensures WalkDocument(TWIN).trace == WalkDocument(ONE_FIELD).trace
  {
    var at := Slots(0, 0);
    BothAreAccepted();
    var field := Walk(TWIN.members.val, "g", 1, false, ',', at);
    var alone := Walk(ONE_FIELD.members.val, "g", 1, false, '}', at);
    assert field == alone;
    assert WalkMembers(ONE_FIELD.members.rest, 1, alone.at) == Walked(true, [], alone.at);
    InnerIsSilent(field.at);
    assert WalkMembers(TWIN_LAST.rest, 1, field.at) == Walked(true, [], field.at);
    assert WalkMembers(TWIN_LAST, 1, field.at) == Walked(true, [], field.at);
  }

  const LENGTH_LINE := Header("Content-Length", " ", "39")

  const EMPTY_LINE := Header("X", "", "")

  const TWIN_LINES: seq<Header> := [LENGTH_LINE, EMPTY_LINE]

  lemma TwoLinesAreReadable(first: Header, last: Header)
    requires GoodLine(first) && first.value != "" && GoodLine(last) && last.value == ""
    ensures Readable([first, last]) && !EndsWithAValue([first, last])
  {
    var lines := [first, last];
    assert lines[1..] == [last] && lines[1..][1..] == [];
    assert Readable([last]) && !EndsWithAValue([last]);
  }

  lemma LengthLineIsGood()
    ensures GoodLine(LENGTH_LINE)
  {
  }

  lemma LengthLineSays()
    ensures IsLength(LENGTH_LINE)
  {
    CStrIsWhole("Content-Length");
  }

  lemma EmptyLineIsGood()
    ensures GoodLine(EMPTY_LINE) && !IsLength(EMPTY_LINE)
  {
    CStrIsWhole("X");
  }

  lemma TwoLinesAnnounce(first: Header, last: Header, body: string)
    requires IsLength(first) && !IsLength(last) && |body| < 0x8000_0000 && first.value == Decimal(|body|)
    ensures Announces([first, last], 0, body)
  {
  }

  lemma TwinLength()
    ensures |Print(TWIN)| == 39
  {
    TwinIsPrinted();
    OneFieldPrinted();
  }

  lemma ThirtyNine()
    ensures Decimal(39) == "39"
  {
    assert Decimal(3) == "3";
    assert "3" + [DigitChar(9)] == "39";
  }

  lemma TwinIsAnnounced()
    ensures Readable(TWIN_LINES) && !EndsWithAValue(TWIN_LINES) && Announces(TWIN_LINES, 0, Print(TWIN))
  {
    TwinLength();
    ThirtyNine();
    LengthLineIsGood();
    LengthLineSays();
    EmptyLineIsGood();
    TwoLinesAreReadable(LENGTH_LINE, EMPTY_LINE);
    TwoLinesAnnounce(LENGTH_LINE, EMPTY_LINE, Print(TWIN));
  }

  /** From the empty value on: the front is its value, and the blank line ends the head. */
  lemma FrontIsSkipped(length: nat, h: Header, body: string)
    requires GoodLine(h) && !IsLength(h)
    ensures RunAll(AtLineValue(length, h.name), TWIN_FRONT + (CRLF + (CRLF + body))) ==
      RunAll(State(Json, length, 0, INITIAL_JSON), body)
  {
    var s := AtLineValue(length, h.name);
    assert "" + TWIN_FRONT == TWIN_FRONT && '\r' !in TWIN_FRONT;
    ReadHeaderValue(s, TWIN_FRONT, CRLF + (CRLF + body));
    EndHeaderLine(length, Header(h.name, "", TWIN_FRONT), CRLF + body);
    BlankLine(length, body);
  }

  /** The inner document is read, and the brace that is left over returns 0. */
  lemma InnerRun()
    ensures var body := Print(ONE_FIELD) + "}";
      |body| == 16 && RunJson(INITIAL_JSON, body) == Run(WalkDocument(ONE_FIELD).trace, Return(0))
  {
    var p := Print(ONE_FIELD);
    OneFieldPrinted();
    BothAreAccepted();
    AfterTheRoot(ONE_FIELD, "", "", '}', "");
    assert "" + p + "" == p && ['}'] + "" == "}";
  }

  lemma InnerIsRead(length: nat)
    requires length == 0 || 16 < length < DWORD
    ensures RunAll(State(Json, length, 0, INITIAL_JSON), Print(ONE_FIELD) + "}") ==
      Run(WalkDocument(ONE_FIELD).trace, Return(0))
  {
    InnerRun();
    if length == 0 {
      BodyWithoutLength(State(Json, length, 0, INITIAL_JSON), Print(ONE_FIELD) + "}");
    } else {
      BodyWithinLength(State(Json, length, 0, INITIAL_JSON), Print(ONE_FIELD) + "}");
    }
  }

  /** Without the condition on braces it may happen that a swallowed body is read all the same: of this one, the value
      takes the front, and what is left makes the same callbacks, and returns 0. */
  lemma SwallowedBodyIsReadAllTheSame()
    ensures Readable(TWIN_LINES) && !EndsWithAValue(TWIN_LINES) && Announces(TWIN_LINES, 0, Print(TWIN))
    ensures WalkDocument(TWIN).ok && |WalkDocument(TWIN).trace| == 1
    ensures Reads(RunAll(Initial(true), PrintResponse(OK_STATUS, TWIN_LINES, Print(TWIN))), TWIN)
  {
    var text, body := Print(TWIN), Print(ONE_FIELD) + "}";
    TwinIsAnnounced();
    TwinLength();
    TwinIsPrinted();
    TwinIsRead();
    OneFieldReported();
    OkStatusIsGood();
    StatusLine(OK_STATUS, PrintHeaders(TWIN_LINES) + (CRLF + text));
    assert Initial(true).(mode := HttpName) == AtHeader(0);
    assert "" + text == text;
    OneLineSays(TWIN_LINES, 0, text);
    var announced, open_ := LinesLeaveAValueOpen(0, TWIN_LINES, "", text, 39);
    FrontIsSkipped(announced, open_, body);
    InnerIsRead(announced);
  }
}
