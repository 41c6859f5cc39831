/** `is_array` and `depth` against a reading of the bytes that knows nothing of the parser: a scanner that only tells
    quoted text from structure, and a stack of the brackets it has seen. */
module BracketStack {
  import opened CStrings
  import opened ParserSpec
  import opened ParserInvariants

  datatype Quoting = Outside | InKey | InString | InEscape

  /** `unclosed` is the brackets open so far, true for `[`; `last` is the last byte outside quotes that was not white
      space; `nested` says that every closing bracket matched the innermost open one. */
  datatype Scan = Scan(quoting: Quoting, last: char, unclosed: seq<bool>, nested: bool)

  const START_OF_TEXT := Scan(Outside, ' ', [], true)

  function Push(s: Scan, isArray: bool): Scan {
    s.(unclosed := s.unclosed + [isArray])
  }

  function Pop(s: Scan, isArray: bool): Scan {
    if s.unclosed != [] && s.unclosed[|s.unclosed| - 1] == isArray then s.(unclosed := s.unclosed[..|s.unclosed| - 1])
    else s.(nested := false)
  }

  /** A quote opens a string after a colon, after a closed array, and inside an array; otherwise it opens a key,
      in which a backslash is an ordinary byte. */
  predicate OpensString(s: Scan) {
    s.last == ':' || s.last == ']' || (s.unclosed != [] && s.unclosed[|s.unclosed| - 1])
  }

  function ScanByte(s: Scan, c: char): Scan {
    match s.quoting
    case InKey => if c == '"' then s.(quoting := Outside, last := c) else s
    case InEscape => s.(quoting := InString)
    case InString =>
      if c == '"' then s.(quoting := Outside, last := c) else if c == '\\' then s.(quoting := InEscape) else s
    case Outside =>
      if IsSpace(c) then s
      else if c == '"' then s.(quoting := if OpensString(s) then InString else InKey)
      else (if c == '[' || c == '{' then Push(s, c == '[')
            else if c == ']' || c == '}' then Pop(s, c == ']')
            else s).(last := c)
  }

  function ScanText(s: Scan, bytes: string): Scan
    decreases |bytes|
  {
    if bytes == "" then s else ScanText(ScanByte(s, bytes[0]), bytes[1..])
  }

  /** The scanner and the parser agree. */
  predicate Agrees(s: JState, scan: Scan) {
    && scan.nested && scan.unclosed == s.stack
    && scan.quoting ==
       (if !s.inQuote then Outside else if s.mode == KeyName then InKey else if s.inEscape then InEscape else InString)
    && (s.mode == Value && s.stack != [] && !s.stack[|s.stack| - 1] ==> scan.last == ':' || scan.last == ']')
    && (s.mode == KeyName && !s.inQuote ==> scan.last != ':' && scan.last != ']')
    && (s.mode == RootStart ==> scan.last == ' ') && (s.mode == RootEnd ==> scan.last == '}')
  }

  lemma NextAgrees(s: JState, scan: Scan, c: char)
    requires GoodJson(s) && s.mode == Next && Agrees(s, scan)
    ensures OnNext(s, c).next.Go? ==> Agrees(OnNext(s, c).next.state, ScanByte(scan, c))
  {
  }

  /** The parser's step and the scanner's, from here. */
  predicate StepsAgree(s: JState, scan: Scan, c: char) {
    StepJson(s, c).next.Go? ==> Agrees(StepJson(s, c).next.state, ScanByte(scan, c))
  }

  lemma QuotedAgrees(s: JState, scan: Scan, c: char)
    requires GoodJson(s) && Agrees(s, scan) && s.inQuote
    ensures StepsAgree(s, scan, c)
  {
  }

  lemma KeyAgrees(s: JState, scan: Scan, c: char)
    requires GoodJson(s) && Agrees(s, scan) && !s.inQuote && (s.mode == KeyName || s.mode == KeySep)
    ensures StepsAgree(s, scan, c)
  {
    NextAgrees(s.(mode := Next), scan, c);
  }

  lemma ValueAgrees(s: JState, scan: Scan, c: char)
    requires GoodJson(s) && Agrees(s, scan) && !s.inQuote && s.mode == Value
    ensures StepsAgree(s, scan, c)
  {
    NextAgrees(s.(mode := Next), scan, c);
  }

  lemma WordAgrees(s: JState, scan: Scan, c: char)
    requires GoodJson(s) && Agrees(s, scan) && !s.inQuote && s.mode == ReadValue
    ensures StepsAgree(s, scan, c)
  {
    NextAgrees(Cleared(s), scan, c);
  }

  lemma StepAgrees(s: JState, scan: Scan, c: char)
    requires GoodJson(s) && Agrees(s, scan)
    ensures StepJson(s, c).next.Go? ==> Agrees(StepJson(s, c).next.state, ScanByte(scan, c))
  {
    if s.inQuote {
      QuotedAgrees(s, scan, c);
    } else {
      match s.mode
      case KeyName => KeyAgrees(s, scan, c);
      case KeySep => KeyAgrees(s, scan, c);
      case Value => ValueAgrees(s, scan, c);
      case ReadValue => WordAgrees(s, scan, c);
      case Next => NextAgrees(s, scan, c);
      case _ =>
    }
  }

  lemma {:induction false} RunAgrees(s: JState, scan: Scan, bytes: string)
    requires GoodJson(s) && Agrees(s, scan)
    ensures var end := RunJson(s, bytes).end;
      end.Go? ==> GoodJson(end.state) && Agrees(end.state, ScanText(scan, bytes))
    decreases |bytes|
  {
    if bytes != "" {
      StepAgrees(s, scan, bytes[0]);
      JsonKeepsGood(s, bytes[0]);
      if StepJson(s, bytes[0]).next.Go? {
        RunAgrees(StepJson(s, bytes[0]).next.state, ScanByte(scan, bytes[0]), bytes[1..]);
      }
    }
  }

  /** For every byte stream on which the parser is still reading: the brackets nest, `is_array[0..depth]` is exactly
      the stack of unclosed ones, there are at most five, there are none only before the root opens and after it
      closes, and so EXPECT_NEXT always has a bracket to look at. */
  lemma StackIsUnclosedBrackets(bytes: string)
    ensures var end := RunJson(INITIAL_JSON, bytes).end;
      end.Go? ==>
        && ScanText(START_OF_TEXT, bytes).nested
        && end.state.stack == ScanText(START_OF_TEXT, bytes).unclosed
        && |end.state.stack| <= 5
        && (end.state.stack == [] <==> end.state.mode == RootStart || end.state.mode == RootEnd)
  {
    RunAgrees(INITIAL_JSON, START_OF_TEXT, bytes);
  }

  // ---------------------------------------------------------------- brackets that do not nest

  /** The position of the first byte that breaks the nesting. */
  function FirstBreak(scan: Scan, bytes: string): (i: nat)
    requires scan.nested && !ScanText(scan, bytes).nested
    ensures i < |bytes|
    decreases |bytes|
  {
    if !ScanByte(scan, bytes[0]).nested then 0 else 1 + FirstBreak(ScanByte(scan, bytes[0]), bytes[1..])
  }

  /** Every bracket is closed, and there was one. */
  predicate RootClosed(scan: Scan) {
    scan.nested && scan.quoting == Outside && scan.unclosed == [] && scan.last == '}'
  }

  /** What happens at the byte that breaks the nesting. */
  lemma BreakingByte(s: JState, scan: Scan, c: char)
    requires GoodJson(s) && Agrees(s, scan) && !ScanByte(scan, c).nested
    ensures StepJson(s, c).next == Return(if c == '}' && RootClosed(scan) then 0 else 1)
  {
  }

  /** A byte that keeps the nesting does not end the run well. */
  lemma NestedByte(s: JState, scan: Scan, c: char)
    requires GoodJson(s) && Agrees(s, scan) && ScanByte(scan, c).nested && StepJson(s, c).next.Return?
    ensures StepJson(s, c).next == Return(1)
  {
  }

  lemma {:induction false} BadNestingReturns(s: JState, scan: Scan, bytes: string)
    requires GoodJson(s) && Agrees(s, scan) && !ScanText(scan, bytes).nested
    ensures var i := FirstBreak(scan, bytes);
      RunJson(s, bytes).end ==
      Return(
        if bytes[i] == '}' && RootClosed(ScanText(scan, bytes[..i])) && RunJson(s, bytes[..i]).end.Go? then 0 else 1)
    decreases |bytes|
  {
    var c, next := bytes[0], StepJson(s, bytes[0]).next;
    var i := FirstBreak(scan, bytes);
    if i == 0 {
      BreakingByte(s, scan, c);
      assert bytes[..i] == "";
    } else {
      assert bytes[..i][0] == c && bytes[..i][1..] == bytes[1..][..i - 1];
      if next.Go? {
        StepAgrees(s, scan, c);
        JsonKeepsGood(s, c);
        BadNestingReturns(next.state, ScanByte(scan, c), bytes[1..]);
      } else {
        NestedByte(s, scan, c);
      }
    }
  }

  /** A text whose brackets do not nest is never read to its end. It is rejected, except that it returns 0 exactly when
      the first byte that breaks the nesting is a brace after the root has closed, and all before it was accepted. */
  lemma BadNestingIsRejected(bytes: string)
    requires !ScanText(START_OF_TEXT, bytes).nested
    ensures var i := FirstBreak(START_OF_TEXT, bytes);
      RunJson(INITIAL_JSON, bytes).end ==
      Return(
        if && bytes[i] == '}' && RootClosed(ScanText(START_OF_TEXT, bytes[..i]))
           && RunJson(INITIAL_JSON, bytes[..i]).end.Go?
        then 0 else 1)
  {
    BadNestingReturns(INITIAL_JSON, START_OF_TEXT, bytes);
  }

  /** The shortest text that does not nest and returns 0. */
  lemma ExtraBrace()
    ensures !ScanText(START_OF_TEXT, "{}}").nested && RunJson(INITIAL_JSON, "{}}").end == Return(0)
  {
    var text := "{}}";
    assert text[1..] == "}}" && text[1..][1..] == "}" && text[1..][1..][1..] == "";
    var s1 := ScanByte(START_OF_TEXT, '{');
    var s2 := ScanByte(s1, '}');
    assert s1.unclosed == [false] && s2.unclosed == [];
    assert ScanText(s2, "}") == ScanByte(s2, '}');
    var j1 := StepJson(INITIAL_JSON, '{').next.state;
    var j2 := StepJson(j1, '}').next.state;
    assert j1.stack == [false] && j2.stack == [];
    assert RunJson(j2, "}").end == Return(0);
  }

  // ---------------------------------------------------------------- LAST

  /** The byte that raises LAST is the brace of the record's own object, and closes it unless the run fails there. */
  lemma LastIsAtABrace(s: JState, scan: Scan, c: char)
    requires GoodJson(s) && Agrees(s, scan)
    ensures forall x <- StepJson(s, c).out :: x.status == Last ==>
      && c == '}' && scan.quoting == Outside && |scan.unclosed| == (if x.isPlayer then 5 else 3)
      && (StepJson(s, c).next.Go? ==> !scan.unclosed[|scan.unclosed| - 1])
      && (StepJson(s, c).next.Return? ==> StepJson(s, c).next.code == 1)
  {
  }

  /** The byte at which a record of a run is raised. */
  lemma {:induction false} RaisedAt(s: JState, bytes: string, k: nat) returns (i: nat)
    requires GoodJson(s) && k < |RunJson(s, bytes).trace|
    ensures i < |bytes| && RunJson(s, bytes[..i]).end.Go? && |RunJson(s, bytes[..i]).trace| == k
    ensures StepJson(RunJson(s, bytes[..i]).end.state, bytes[i]).out == [RunJson(s, bytes).trace[k]]
    ensures StepJson(RunJson(s, bytes[..i]).end.state, bytes[i]).next.Return? ==>
      RunJson(s, bytes).end == StepJson(RunJson(s, bytes[..i]).end.state, bytes[i]).next
    decreases |bytes|
  {
    var r := StepJson(s, bytes[0]);
    OneRecordAByte(s, bytes[0]);
    if k < |r.out| {
      assert bytes[..0] == "";
      i := 0;
    } else {
      JsonKeepsGood(s, bytes[0]);
      var j := RaisedAt(r.next.state, bytes[1..], k - |r.out|);
      i := j + 1;
      assert bytes[..i][0] == bytes[0] && bytes[..i][1..] == bytes[1..][..j];
    }
  }

  lemma OneRecordAByte(s: JState, c: char)
    ensures |StepJson(s, c).out| <= 1
  {
  }

  /** In a run that returns 0, every LAST is the final entry of its object: the brace that raised it closed a server,
      three brackets deep, or a player, five deep. */
  lemma LastIsTheFinalEntry(bytes: string, k: nat) returns (i: nat)
    requires ExitCode(RunJson(INITIAL_JSON, bytes).end) == 0 && k < |RunJson(INITIAL_JSON, bytes).trace|
    requires RunJson(INITIAL_JSON, bytes).trace[k].status == Last
    ensures i < |bytes| && bytes[i] == '}' && |RunJson(INITIAL_JSON, bytes[..i]).trace| == k
    ensures var before, after := ScanText(START_OF_TEXT, bytes[..i]), ScanText(START_OF_TEXT, bytes[..i + 1]);
      && before.quoting == Outside
      && |before.unclosed| == (if RunJson(INITIAL_JSON, bytes).trace[k].isPlayer then 5 else 3)
      && !before.unclosed[|before.unclosed| - 1] && after.unclosed == before.unclosed[..|before.unclosed| - 1]
  {
    i := RaisedAt(INITIAL_JSON, bytes, k);
    RunAgrees(INITIAL_JSON, START_OF_TEXT, bytes[..i]);
    var s := RunJson(INITIAL_JSON, bytes[..i]).end.state;
    LastIsAtABrace(s, ScanText(START_OF_TEXT, bytes[..i]), bytes[i]);
    assert RunJson(INITIAL_JSON, bytes).trace[k] in StepJson(s, bytes[i]).out;
    ScanOneMore(START_OF_TEXT, bytes, i);
  }

  lemma {:induction false} ScanOneMore(scan: Scan, bytes: string, i: nat)
    requires i < |bytes|
    ensures ScanText(scan, bytes[..i + 1]) == ScanByte(ScanText(scan, bytes[..i]), bytes[i])
    decreases i
  {
    if i == 0 {
      assert bytes[..1][1..] == "" && bytes[..0] == "";
      assert ScanText(scan, bytes[..1]) == ScanText(ScanByte(scan, bytes[0]), "");
    } else {
      assert bytes[..i + 1][1..] == bytes[1..][..i] && bytes[..i][1..] == bytes[1..][..i - 1];
      ScanOneMore(ScanByte(scan, bytes[0]), bytes[1..], i - 1);
    }
  }
}
