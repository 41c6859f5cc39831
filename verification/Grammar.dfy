/** Exactly which byte streams `parse_data` accepts (bzccnet.c), said of the bytes alone: after every text, which byte
    may come next. */
module Grammar {
  import opened CStrings
  import opened ParserSpec
  import opened ParserInvariants
  import opened BracketStack

  // ---------------------------------------------------------------- where a text has got to

  /** What the bytes so far amount to. `keyRead` says that a key has been closed and its colon is still to come; `key`
      and `text` are the lengths of the key and of the value that are being read. A key that is left without a value
      when its object ends counts for the next one. */
  datatype Place = Place(scan: Scan, keyRead: bool, key: nat, text: nat)

  const START := Place(START_OF_TEXT, false, 0, 0)

  predicate IsBlank(c: char) {
    c == ' ' || c == '\t' || c == '\n' || c == '\r' || c == '\U{0B}' || c == '\U{0C}'
  }

  predicate InWords(c: char) {
    'a' <= c <= 'z' || 'A' <= c <= 'Z' || '0' <= c <= '9'
    || c == '.' || c == '-' || c == '!' || c == '@' || c == '#' || c == '$' || c == '%' || c == '^'
    || c == '&' || c == '*' || c == '+' || c == '='
  }

  function ReadOutside(p: Place, c: char): Place {
    var scan := ScanByte(p.scan, c);
    if IsBlank(c) then p
    else if InWords(c) then Place(scan, false, p.key, p.text + 1)
    else if c == ',' || c == '[' || c == '{' || p.text > 0 then Place(scan, false, 0, 0)
    else Place(scan, false, p.key, 0)
  }

  /** One more byte. */
  function ReadOn(p: Place, c: char): Place {
    var scan := ScanByte(p.scan, c);
    match p.scan.quoting
    case InKey => if c == '"' then p.(scan := scan, keyRead := true) else p.(scan := scan, key := p.key + 1)
    case InEscape => p.(scan := scan, text := p.text + 1)
    case InString =>
      if c == '"' then Place(scan, false, 0, 0)
      else if c == '\\' then p.(scan := scan)
      else p.(scan := scan, text := p.text + 1)
    case Outside => ReadOutside(p, c)
  }

  function PlaceAfter(p: Place, bytes: string): Place
    decreases |bytes|
  {
    if bytes == "" then p else PlaceAfter(ReadOn(p, bytes[0]), bytes[1..])
  }

  // ---------------------------------------------------------------- what may come next

  predicate InnermostIsArray(p: Place) {
    p.scan.unclosed != [] && p.scan.unclosed[|p.scan.unclosed| - 1]
  }

  /** A comma, or the bracket that matches the innermost open one. */
  predicate EndsEntry(p: Place, c: char) {
    p.scan.unclosed != [] && (c == ',' || c == (if InnermostIsArray(p) then ']' else '}'))
  }

  predicate StartsValue(p: Place, c: char) {
    c == '"' || InWords(c) || ((c == '[' || c == '{') && |p.scan.unclosed| < 5)
  }

  /** What may follow outside quotes, apart from white space. An entry of an array may be left out, and so may a value
      after its colon; a comma may be the last thing in an object; and an array that has ended is followed by a value
      of its own. */
  predicate MayFollowOutside(p: Place, c: char) {
    if p.keyRead then c == ':'
    else if p.text > 0 then (InWords(c) && p.text < 1023) || EndsEntry(p, c)
    else if p.scan.last == '"' then EndsEntry(p, c)
    else if p.scan.last == ' ' then c == '{'
    else if p.scan.unclosed == [] then false
    else if p.scan.last == ':' || p.scan.last == ']' || InnermostIsArray(p) then StartsValue(p, c) || EndsEntry(p, c)
    else c == '"' || c == '}'
  }

  predicate MayFollow(p: Place, c: char) {
    match p.scan.quoting
    case InKey => c == '"' || (c != '\n' && c != '\r' && p.key < 1023)
    case InString => c == '"' || c == '\\' || (c != '\n' && c != '\r' && p.text < 1023)
    case InEscape => (c == '"' || c == '\\' || c == 'r' || c == 'n' || c == 't') && p.text < 1023
    case Outside => IsBlank(c) || MayFollowOutside(p, c)
  }

  /** Every byte may follow the ones before it. */
  predicate Fits(bytes: string) {
    forall k :: 0 <= k < |bytes| ==> MayFollow(PlaceAfter(START, bytes[..k]), bytes[k])
  }

  /** A closing brace after the root, which ends the reading at once. */
  predicate BraceAfterRoot(p: Place, c: char) {
    p.scan.quoting == Outside && p.scan.unclosed == [] && p.scan.last == '}' && c == '}'
  }

  // ---------------------------------------------------------------- the parser is at the place that the bytes say

  function ModeAt(p: Place): JMode {
    match p.scan.quoting
    case InKey => KeyName
    case InString => ReadValue
    case InEscape => ReadValue
    case Outside =>
      if p.keyRead then KeySep
      else if p.text > 0 then ReadValue
      else if p.scan.last == '"' then Next
      else if p.scan.last == ' ' then RootStart
      else if p.scan.unclosed == [] then RootEnd
      else if OpensString(p.scan) then Value
      else KeyName
  }

  predicate IsAt(s: JState, p: Place) {
    && GoodJson(s) && p.scan.nested && s.stack == p.scan.unclosed
    && |s.name| == p.key && |s.value| == p.text && s.mode == ModeAt(p)
    && s.inQuote == (p.scan.quoting != Outside) && s.inEscape == (p.scan.quoting == InEscape)
    && (s.mode == RootStart ==> p.key == 0) && (s.mode == RootEnd ==> p.scan.last == '}')
  }

  /** The parser takes the byte if and only if it may follow, and then it is at the new place. */
  predicate Decides(s: JState, p: Place, c: char) {
    var next := StepJson(s, c).next;
    && (next.Go? <==> MayFollow(p, c))
    && (if next.Go? then IsAt(next.state, ReadOn(p, c)) else next == Return(if BraceAfterRoot(p, c) then 0 else 1))
  }

  lemma SpacesAreBlank(c: char)
    ensures IsSpace(c) <==> IsBlank(c)
    ensures IsWordChar(c) <==> InWords(c)
    ensures InWords(c) ==> !IsBlank(c)
  {
  }

  /** `Next` is also where the closing bracket or comma of an empty entry, and of a bare value, is read. */
  lemma NextDecides(s: JState, p: Place, c: char)
    requires GoodJson(s) && s.mode == Next && p.scan.nested && s.stack == p.scan.unclosed && p.scan.quoting == Outside
    ensures var next := OnNext(s, c).next;
      && (next.Go? <==> IsBlank(c) || EndsEntry(p, c))
      && (next.Return? ==> next.code == 1)
      && (EndsEntry(p, c) ==>
            && next.state.stack == ScanByte(p.scan, c).unclosed && ScanByte(p.scan, c).nested
            && next.state.inQuote == s.inQuote && next.state.inEscape == s.inEscape
            && next.state.name == (if c == ',' then "" else s.name)
            && next.state.value == (if c == ',' && !InnermostIsArray(p) then "" else s.value))
  {
    SpacesAreBlank(c);
  }

  lemma NextMode(s: JState, p: Place, c: char)
    requires GoodJson(s) && s.mode == Next && p.scan.nested && s.stack == p.scan.unclosed && p.scan.quoting == Outside
    requires EndsEntry(p, c) && ReadOn(p, c).text == 0 && !ReadOn(p, c).keyRead
    ensures OnNext(s, c).next.state.mode == ModeAt(ReadOn(p, c))
  {
    var after := ReadOn(p, c).scan;
    assert after.quoting == Outside && after.last == c;
    if c == '}' {
      assert after.unclosed == s.stack[..|s.stack| - 1];
    } else if c == ']' {
      assert after.unclosed == s.stack[..|s.stack| - 1];
      assert |s.stack| >= 2;
    } else {
      assert after.unclosed == s.stack;
    }
  }

  lemma QuotedDecides(s: JState, p: Place, c: char)
    requires IsAt(s, p) && s.inQuote
    ensures Decides(s, p, c)
  {
  }

  lemma OpeningDecides(s: JState, p: Place, c: char)
    requires IsAt(s, p) && !s.inQuote && (s.mode == RootStart || s.mode == KeySep || s.mode == RootEnd)
    ensures Decides(s, p, c)
  {
    SpacesAreBlank(c);
  }

  lemma KeyDecides(s: JState, p: Place, c: char)
    requires IsAt(s, p) && !s.inQuote && s.mode == KeyName
    ensures Decides(s, p, c)
  {
    SpacesAreBlank(c);
    if c == '}' {
      NextDecides(s.(mode := Next), p, c);
      NextMode(s.(mode := Next), p, c);
    }
  }

  lemma EmptyEntryDecides(s: JState, p: Place, c: char)
    requires IsAt(s, p) && !s.inQuote && s.mode == Value && EndsEntry(p, c)
    ensures Decides(s, p, c)
  {
    NextDecides(s.(mode := Next), p, c);
    NextMode(s.(mode := Next), p, c);
  }

  lemma ValueDecides(s: JState, p: Place, c: char)
    requires IsAt(s, p) && !s.inQuote && s.mode == Value
    ensures Decides(s, p, c)
  {
    SpacesAreBlank(c);
    if EndsEntry(p, c) {
      EmptyEntryDecides(s, p, c);
    } else {
      NextDecides(s.(mode := Next), p, c);
    }
  }

  lemma WordDecides(s: JState, p: Place, c: char)
    requires IsAt(s, p) && !s.inQuote && s.mode == ReadValue
    ensures Decides(s, p, c)
  {
    SpacesAreBlank(c);
    NextDecides(Cleared(s), p, c);
    if EndsEntry(p, c) {
      NextMode(Cleared(s), p, c);
    }
  }

  lemma EndDecides(s: JState, p: Place, c: char)
    requires IsAt(s, p) && !s.inQuote && s.mode == Next
    ensures Decides(s, p, c)
  {
    SpacesAreBlank(c);
    NextDecides(s, p, c);
    if EndsEntry(p, c) {
      NextMode(s, p, c);
    }
  }

  lemma StepDecides(s: JState, p: Place, c: char)
    requires IsAt(s, p)
    ensures Decides(s, p, c)
  {
    if s.inQuote {
      QuotedDecides(s, p, c);
    } else {
      match s.mode
      case KeyName => KeyDecides(s, p, c);
      case Value => ValueDecides(s, p, c);
      case ReadValue => WordDecides(s, p, c);
      case Next => EndDecides(s, p, c);
      case _ => OpeningDecides(s, p, c);
    }
  }

  // ---------------------------------------------------------------- every stream

  lemma {:induction false} RunIsAt(s: JState, p: Place, bytes: string)
    requires IsAt(s, p) && RunJson(s, bytes).end.Go?
    ensures IsAt(RunJson(s, bytes).end.state, PlaceAfter(p, bytes))
    decreases |bytes|
  {
    if bytes != "" {
      StepDecides(s, p, bytes[0]);
      RunIsAt(StepJson(s, bytes[0]).next.state, ReadOn(p, bytes[0]), bytes[1..]);
    }
  }

  /** The run over a text and then, unless it has returned, over another. */
  function Resumed(r: Run<JState>, b: string): Run<JState> {
    if r.end.Go? then Prepend(r.trace, RunJson(r.end.state, b)) else r
  }

  lemma PrependResumed(out: seq<Record>, r: Run<JState>, b: string)
    ensures Prepend(out, Resumed(r, b)) == Resumed(Prepend(out, r), b)
  {
    if r.end.Go? {
      var rest := RunJson(r.end.state, b).trace;
      assert out + (r.trace + rest) == out + r.trace + rest;
    }
  }

  lemma {:induction false} RunContinues(s: JState, a: string, b: string)
    ensures RunJson(s, a + b) == Resumed(RunJson(s, a), b)
    decreases |a|
  {
    if a == "" {
      assert a + b == b;
    } else {
      var r := StepJson(s, a[0]);
      assert (a + b)[1..] == a[1..] + b;
      if r.next.Go? {
        RunContinues(r.next.state, a[1..], b);
        PrependResumed(r.out, RunJson(r.next.state, a[1..]), b);
      }
    }
  }

  lemma OneByte(s: JState, c: char)
    ensures RunJson(s, [c]).end == StepJson(s, c).next
  {
    assert [c][1..] == "";
  }

  lemma StartIsAt()
    ensures IsAt(INITIAL_JSON, START)
  {
  }

  /** The byte after a text that is still being read. */
  lemma ByteDecides(a: string, c: char)
    requires RunJson(INITIAL_JSON, a).end.Go?
    ensures Decides(RunJson(INITIAL_JSON, a).end.state, PlaceAfter(START, a), c)
  {
    StartIsAt();
    RunIsAt(INITIAL_JSON, START, a);
    StepDecides(RunJson(INITIAL_JSON, a).end.state, PlaceAfter(START, a), c);
  }

  lemma {:induction false} FitsIsPrefixClosed(bytes: string, n: nat)
    requires Fits(bytes) && n <= |bytes|
    ensures Fits(bytes[..n])
  {
    forall k | 0 <= k < n ensures MayFollow(PlaceAfter(START, bytes[..n][..k]), bytes[..n][k]) {
      assert bytes[..n][..k] == bytes[..k];
      assert MayFollow(PlaceAfter(START, bytes[..k]), bytes[k]);
    }
  }

  lemma FitsOneMore(a: string, c: char)
    ensures Fits(a + [c]) <==> Fits(a) && MayFollow(PlaceAfter(START, a), c)
  {
    var bytes := a + [c];
    assert bytes[..|a|] == a && bytes[|a|] == c;
    if Fits(bytes) {
      FitsIsPrefixClosed(bytes, |a|);
    }
    if Fits(a) && MayFollow(PlaceAfter(START, a), c) {
      forall k | 0 <= k < |bytes| ensures MayFollow(PlaceAfter(START, bytes[..k]), bytes[k]) {
        assert k < |a| ==> bytes[..k] == a[..k] && bytes[k] == a[k];
      }
    }
  }

  /** The parser is still reading if and only if every byte may follow the ones before it. */
  lemma {:induction false} StreamIsReadIff(bytes: string)
    ensures RunJson(INITIAL_JSON, bytes).end.Go? <==> Fits(bytes)
    decreases |bytes|
  {
    if bytes != "" {
      var a, c := bytes[..|bytes| - 1], bytes[|bytes| - 1];
      assert bytes == a + [c];
      StreamIsReadIff(a);
      RunContinues(INITIAL_JSON, a, [c]);
      FitsOneMore(a, c);
      if RunJson(INITIAL_JSON, a).end.Go? {
        ByteDecides(a, c);
        OneByte(RunJson(INITIAL_JSON, a).end.state, c);
      }
    }
  }

  /** The first byte that may not follow ends the run, whatever comes after it: with 0 if it is a brace after the root,
      and otherwise with 1. */
  lemma FirstBadByte(a: string, c: char, rest: string)
    requires Fits(a) && !MayFollow(PlaceAfter(START, a), c)
    ensures RunJson(INITIAL_JSON, a + ([c] + rest)).end ==
      Return(if BraceAfterRoot(PlaceAfter(START, a), c) then 0 else 1)
    ensures PlaceAfter(START, a).scan.quoting != Outside ==>
      RunJson(INITIAL_JSON, a + ([c] + rest)) == Run(RunJson(INITIAL_JSON, a).trace, Return(1))
  {
    StreamIsReadIff(a);
    ByteDecides(a, c);
    StartIsAt();
    RunIsAt(INITIAL_JSON, START, a);
    RunContinues(INITIAL_JSON, a, [c] + rest);
    var s := RunJson(INITIAL_JSON, a).end.state;
    assert ([c] + rest)[0] == c;
    assert RunJson(s, [c] + rest) == Run(StepJson(s, c).out, StepJson(s, c).next);
    if s.inQuote {
      NoRecordAtABadByte(s, c);
      assert RunJson(INITIAL_JSON, a).trace + [] == RunJson(INITIAL_JSON, a).trace;
    }
  }

  lemma NoRecordAtABadByte(s: JState, c: char)
    requires s.inQuote && (s.mode == KeyName || s.mode == ReadValue) && StepJson(s, c).next.Return?
    ensures StepJson(s, c) == Fail<JState>()
  {
  }

  lemma FirstBad(bytes: string) returns (k: nat)
    requires !Fits(bytes)
    ensures k < |bytes| && Fits(bytes[..k]) && !MayFollow(PlaceAfter(START, bytes[..k]), bytes[k])
    decreases |bytes|
  {
    var a, c := bytes[..|bytes| - 1], bytes[|bytes| - 1];
    assert bytes == a + [c];
    FitsOneMore(a, c);
    if Fits(a) {
      k := |a|;
    } else {
      k := FirstBad(a);
      assert a[..k] == bytes[..k];
    }
  }

  lemma FitsAt(bytes: string, n: nat, k: nat)
    requires k < n <= |bytes| && Fits(bytes[..n])
    ensures MayFollow(PlaceAfter(START, bytes[..k]), bytes[k])
  {
    assert bytes[..n][..k] == bytes[..k] && bytes[..n][k] == bytes[k];
  }

  /** Byte `k` is a brace after the root, and all before it has been read. */
  predicate ClosedTwice(bytes: string, k: int) {
    0 <= k < |bytes| && Fits(bytes[..k]) && BraceAfterRoot(PlaceAfter(START, bytes[..k]), bytes[k])
  }

  lemma SplitAt(bytes: string, k: nat)
    requires k < |bytes|
    ensures bytes == bytes[..k] + ([bytes[k]] + bytes[k + 1..])
  {
  }

  lemma FirstBadDecides(bytes: string, k: nat)
    requires k < |bytes| && Fits(bytes[..k]) && !MayFollow(PlaceAfter(START, bytes[..k]), bytes[k])
    ensures ExitCode(RunJson(INITIAL_JSON, bytes).end) == if ClosedTwice(bytes, k) then 0 else 1
  {
    var a, c, rest := bytes[..k], bytes[k], bytes[k + 1..];
    SplitAt(bytes, k);
    FirstBadByte(a, c, rest);
  }

  lemma OnlyTheFirst(bytes: string, j: nat, k: nat)
    requires ClosedTwice(bytes, j)
    requires k < |bytes| && Fits(bytes[..k]) && !MayFollow(PlaceAfter(START, bytes[..k]), bytes[k])
    ensures j == k
  {
    if j < k {
      FitsAt(bytes, k, j);
    } else if k < j {
      FitsAt(bytes, j, k);
    }
  }

  /** The return value for every byte stream: 0 if every byte may follow the ones before it, so that the stream ends
      while it is being read, or up to a brace after the root; and otherwise 1. */
  lemma ReturnsZeroIff(bytes: string)
    ensures ExitCode(RunJson(INITIAL_JSON, bytes).end) == 0 <==> Fits(bytes) || exists k :: ClosedTwice(bytes, k)
    ensures ExitCode(RunJson(INITIAL_JSON, bytes).end) == 0 || ExitCode(RunJson(INITIAL_JSON, bytes).end) == 1
  {
    StreamIsReadIff(bytes);
    if !Fits(bytes) {
      var k := FirstBad(bytes);
      FirstBadDecides(bytes, k);
      forall j | ClosedTwice(bytes, j) ensures j == k {
        OnlyTheFirst(bytes, j, k);
      }
    }
  }
}
