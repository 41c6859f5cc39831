/** `parse_data`, `ScanFile` and `ScanHTTP` (bzccnet.c) as they run: fixed buffers updated in place. */
module StreamParser {
  import opened CStrings
  import opened ParserSpec
  import opened ParserInvariants
  import opened ParserRuns

  const RECV_BUFLEN := 1024

  /** The receive buffer, and what the file or socket has still to deliver. */
  class BufferedReaderInfo {
    const buffer: array<char>
    var received: nat
    var pending: seq<Read>

    ghost predicate Valid()
      reads this
    {
      && buffer.Length == RECV_BUFLEN && received <= RECV_BUFLEN
      && forall i :: 0 <= i < |pending| && pending[i].Received? ==> |pending[i].bytes| <= RECV_BUFLEN
    }

    constructor (input: seq<Read>)
      requires forall i :: 0 <= i < |input| && input[i].Received? ==> |input[i].bytes| <= RECV_BUFLEN
      ensures Valid() && pending == input && fresh(buffer)
    {
      buffer := new char[RECV_BUFLEN](_ => NUL);
      received := 0;
      pending := input;
    }

    /** `Read_to_BRI` and `TCP_to_BRI`. When nothing is pending, the stream has ended. */
    method Fill() returns (ok: bool)
      requires Valid()
      modifies this, buffer
      ensures Valid()
      ensures old(pending) == [] ==> ok && received == 0 && pending == []
      ensures old(pending) != [] ==> pending == old(pending)[1..] && ok == old(pending)[0].Received?
      ensures old(pending) != [] && ok ==> buffer[..received] == old(pending)[0].bytes
    {
      if pending == [] {
        received := 0;
        return true;
      }
      var next := pending[0];
      pending := pending[1..];
      if next.Failed? {
        return false;
      }
      forall i | 0 <= i < |next.bytes| { buffer[i] := next.bytes[i]; }
      received := |next.bytes|;
      assert buffer[..received] == next.bytes;
      return true;
    }
  }

  /** `is_word_char`. */
  method WordChar(c: char) returns (r: bool)
    ensures r == IsWordChar(c)
  {
    if IsAlnum(c) {
      return true;
    }
    var i := 0;
    while i < |WORD_WHITELIST|
      invariant i <= |WORD_WHITELIST|
      invariant forall j :: 0 <= j < i ==> WORD_WHITELIST[j] != c
    {
      if c == WORD_WHITELIST[i] {
        return true;
      }
      i := i + 1;
    }
    assert WORD_WHITELIST[0] != c && WORD_WHITELIST[1] != c && WORD_WHITELIST[2] != c && WORD_WHITELIST[3] != c;
    assert WORD_WHITELIST[4] != c && WORD_WHITELIST[5] != c && WORD_WHITELIST[6] != c && WORD_WHITELIST[7] != c;
    assert WORD_WHITELIST[8] != c && WORD_WHITELIST[9] != c && WORD_WHITELIST[10] != c && WORD_WHITELIST[11] != c;
    return false;
  }

  /** `strncpy` of a NUL-terminated buffer into a field of `n` bytes. */
  method CopyString(buffer: array<char>, n: nat) returns (s: string)
    requires n <= buffer.Length
    ensures s == Copied(buffer[..], n)
  {
    s := "";
    var i := 0;
    while i < n && buffer[i] != NUL
      invariant i <= n
      invariant s == buffer[..i]
      invariant forall j :: 0 <= j < i ==> buffer[j] != NUL
    {
      s := s + [buffer[i]];
      i := i + 1;
    }

    ghost var whole := CStr(buffer[..]);
    CStrEndsAtNul(buffer[..]);
    CopiedIsCut(buffer[..], n);
    assert |whole| >= i;
    assert whole[..i] == buffer[..i];
  }

  /** How the code below a byte's first test goes on: to the next byte, out of `parse_data`, or to the next test. */
  datatype Flow = NextByte | Leave(code: int) | Fall

  /** The local variables of `parse_data`. `trace` logs the callbacks it makes. */
  class Parser {
    const name: array<char>
    const value: array<char>
    const isArray: array<bool>
    const stop: Consumer
    var nameLen: nat
    var valueLen: nat
    var depth: nat
    var mode: Mode
    var jMode: JMode
    var inQuote: bool
    var inEscape: bool
    var contentLength: nat
    var jsonLen: nat
    var serverSlot: nat
    var playerSlot: nat
    var trace: seq<Record>

    /** The buffers: distinct, large enough, and zero beyond what was accumulated. */
    ghost predicate Shape()
      reads this, name, value
    {
      && name.Length == GENERIC_BUFLEN && value.Length == GENERIC_BUFLEN && isArray.Length == MAX_DEPTH
      && name != value
      && nameLen < GENERIC_BUFLEN && valueLen < GENERIC_BUFLEN && depth < MAX_DEPTH
      && (forall i :: nameLen <= i < GENERIC_BUFLEN ==> name[i] == NUL)
      && (forall i :: valueLen <= i < GENERIC_BUFLEN ==> value[i] == NUL)
    }

    ghost function JsonState(): JState
      requires Shape()
      reads this, name, value, isArray
    {
      JState(jMode, name[..nameLen], value[..valueLen], isArray[..depth], inQuote, inEscape, serverSlot, playerSlot)
    }

    ghost function Abs(): State
      requires Shape()
      reads this, name, value, isArray
    {
      State(mode, contentLength, jsonLen, JsonState())
    }

    ghost predicate Valid()
      reads this, name, value, isArray
    {
      Shape() && Good(Abs())
    }

    constructor (usingHttp: bool, stop: Consumer)
      ensures Valid() && Abs() == Initial(usingHttp) && trace == [] && this.stop == stop
      ensures fresh(name) && fresh(value) && fresh(isArray)
    {
      this.stop := stop;
      name := new char[GENERIC_BUFLEN](_ => NUL);
      value := new char[GENERIC_BUFLEN](_ => NUL);
      isArray := new bool[MAX_DEPTH];
      nameLen, valueLen, depth := 0, 0, 0;
      mode := if usingHttp then HttpHeader else Json;
      jMode := RootStart;
      inQuote, inEscape := false, false;
      contentLength, jsonLen := 0, 0;
      serverSlot, playerSlot := 0, 0;
      trace := [];
    }

    // ------------------------------------------------------------ buffers

    method ClearName()
      requires Shape()
      modifies this`nameLen, name
      ensures Shape() && Abs() == SetName(old(Abs()), "")
    {
      forall i | 0 <= i < nameLen { name[i] := NUL; }
      nameLen := 0;
    }

    method ClearValue()
      requires Shape()
      modifies this`valueLen, value
      ensures Shape() && Abs() == SetValue(old(Abs()), "")
    {
      forall i | 0 <= i < valueLen { value[i] := NUL; }
      valueLen := 0;
    }

    method AppendName(c: char)
      requires Shape() && nameLen + 1 < GENERIC_BUFLEN
      modifies this`nameLen, name
      ensures Shape() && Abs() == SetName(old(Abs()), old(Abs()).json.name + [c])
    {
      name[nameLen] := c;
      nameLen := nameLen + 1;
      assert name[..nameLen] == old(name[..nameLen]) + [c];
    }

    method AppendValue(c: char)
      requires Shape() && valueLen + 1 < GENERIC_BUFLEN
      modifies this`valueLen, value
      ensures Shape() && Abs() == SetValue(old(Abs()), old(Abs()).json.value + [c])
    {
      value[valueLen] := c;
      valueLen := valueLen + 1;
      assert value[..valueLen] == old(value[..valueLen]) + [c];
    }

    /** The callback at the end of a value; `stopped` is its answer. */
    method MakeCallback(status: Status) returns (stopped: bool)
      requires Shape()
      modifies this`trace
      ensures trace == old(trace) + Emit(JsonState(), status)
      ensures stopped == (Emit(JsonState(), status) != [] && stop(trace))
    {
      var key := CopyString(name, KEY_LEN);
      var val := CopyString(value, VALUE_LEN);
      assert name[..] == name[..nameLen] + name[nameLen..];
      assert value[..] == value[..valueLen] + value[valueLen..];
      CopiedPadded(name[..nameLen], name[nameLen..], KEY_LEN);
      CopiedPadded(value[..valueLen], value[valueLen..], VALUE_LEN);
      stopped := false;
      if depth == 3 {
        trace := trace + [Record(status, false, key, val, serverSlot, playerSlot)];
        stopped := stop(trace);
      } else {
        if depth == 5 {
          trace := trace + [Record(status, true, key, val, serverSlot, playerSlot)];
          stopped := stop(trace);
        }
      }
    }

    // ------------------------------------------------------------ JSON states

    /** `flow` and the state it leaves are what `r` says, unless the code falls through to a later test. */
    ghost predicate Did(r: Reaction<JState>, flow: Flow)
      requires Shape()
      reads this, name, value, isArray
    {
      && (flow.NextByte? ==> r.next == Go(JsonState()))
      && (flow.Leave? ==> r.next == Return(flow.code))
    }

    method AtRootStart(c: char) returns (flow: Flow)
      requires Valid() && mode == Json && jMode == RootStart
      modifies this`jMode, this`depth, isArray
      ensures Shape() && !flow.Fall? && Did(OnRootStart(old(JsonState()), c), flow)
    {
      if c == '{' {
        jMode := KeyName;
        isArray[depth] := false;
        depth := depth + 1;
        assert isArray[..depth] == old(isArray[..depth]) + [false];
        return NextByte;
      }
      if IsSpace(c) {
        return NextByte;
      }
      return Leave(1);
    }

    method AtKeyName(c: char) returns (flow: Flow)
      requires Valid() && mode == Json && jMode == KeyName
      modifies this`jMode, this`inQuote, this`nameLen, name
      ensures Shape() && Did(OnKeyName(old(JsonState()), c), flow)
      ensures flow.Fall? ==>
        JsonState() == old(JsonState()).(mode := Next) && OnKeyName(old(JsonState()), c) == OnNext(JsonState(), c)
    {
      if inQuote {
        if c == '"' {
          inQuote := false;
          jMode := KeySep;
          return NextByte;
        }
        if c == '\n' || c == '\r' {
          return Leave(1);
        }
        if nameLen + 1 >= GENERIC_BUFLEN {
          return Leave(1);
        }
        AppendName(c);
        return NextByte;
      }
      if c == '"' {
        inQuote := true;
        return NextByte;
      }
      if IsSpace(c) {
        return NextByte;
      }
      if c == '}' {
        jMode := Next;
        return Fall;
      } else {
        return Leave(1);
      }
    }

    method AtKeySep(c: char) returns (flow: Flow)
      requires Valid() && mode == Json && jMode == KeySep
      modifies this`jMode
      ensures Shape() && !flow.Fall? && Did(OnKeySep(old(JsonState()), c), flow)
    {
      if c == ':' {
        jMode := Value;
        return NextByte;
      }
      if IsSpace(c) {
        return NextByte;
      }
      return Leave(1);
    }

    /** A bracket opens: the slot for it is written before the depth is tested. */
    method Open(c: char) returns (flow: Flow)
      requires Valid() && mode == Json && jMode == Value && (c == '[' || c == '{')
      modifies this`jMode, this`depth, this`nameLen, isArray, name
      ensures Shape() && !flow.Fall? && Did(OnValue(old(JsonState()), c), flow)
    {
      if c == '[' {
        jMode := Value;
        isArray[depth] := true;
      } else {
        jMode := KeyName;
        isArray[depth] := false;
      }
      if depth + 1 >= MAX_DEPTH {
        return Leave(1);
      }
      depth := depth + 1;
      assert isArray[..depth] == old(isArray[..depth]) + [c == '['];
      ClearName();
      return NextByte;
    }

    method AtValue(c: char) returns (flow: Flow)
      requires Valid() && mode == Json && jMode == Value
      modifies this`jMode, this`inQuote, this`depth, this`nameLen, this`valueLen, isArray, name, value
      ensures Shape() && Did(OnValue(old(JsonState()), c), flow)
      ensures flow.Fall? ==>
        JsonState() == old(JsonState()).(mode := Next) && OnValue(old(JsonState()), c) == OnNext(JsonState(), c)
    {
      if c == '"' {
        inQuote := true;
        jMode := ReadValue;
        return NextByte;
      }
      var isWord := WordChar(c);
      if isWord {
        AppendValue(c);
        jMode := ReadValue;
        return NextByte;
      }
      if c == '[' || c == '{' {
        flow := Open(c);
        return;
      }
      if IsSpace(c) {
        return NextByte;
      }
      if c == ',' || c == '}' || c == ']' {
        jMode := Next;
        return Fall;
      } else {
        return Leave(1);
      }
    }

    /** The state that the value-ending branches leave behind. */
    method FinishValue()
      requires Shape()
      modifies this`jMode, this`nameLen, this`valueLen, name, value
      ensures Shape() && Abs() == old(Abs()).(json := Cleared(old(JsonState())))
    {
      ClearName();
      ClearValue();
      jMode := Next;
    }

    method InQuotedValue(c0: char) returns (flow: Flow)
      requires Valid() && mode == Json && jMode == ReadValue && inQuote
      modifies this`jMode, this`inQuote, this`inEscape, this`trace, this`nameLen, this`valueLen, name, value
      ensures Shape() && !flow.Fall?
      ensures var r := OnReadQuoted(old(JsonState()), c0);
        trace == old(trace) + r.out
        && if r.out != [] && stop(trace) then flow == Leave(1) else Did(r, flow)
    {
      var c := c0;
      if !inEscape {
        if c == '"' {
          inQuote := false;
          var stopped := MakeCallback(Normal);
          if stopped {
            return Leave(1);
          }
          FinishValue();
          return NextByte;
        }
        if c == '\n' || c == '\r' {
          return Leave(1);
        }
        if c == '\\' {
          inEscape := true;
          return NextByte;
        }
      } else {
        match c {
          case '"' =>
          case '\\' =>
          case 'r' => c := '\r';
          case 'n' => c := '\n';
          case 't' => c := '\t';
          case _ => return Leave(1);
        }
        inEscape := false;
      }
      if valueLen + 1 >= GENERIC_BUFLEN {
        return Leave(1);
      }
      AppendValue(c);
      return NextByte;
    }

    method InBareValue(c: char) returns (flow: Flow)
      requires Valid() && mode == Json && jMode == ReadValue && !inQuote
      modifies this`jMode, this`trace, this`nameLen, this`valueLen, name, value
      ensures Shape()
      ensures var r := OnReadWord(old(JsonState()), c);
        trace == old(trace) + r.out
        && if r.out != [] && stop(trace) then flow == Leave(1)
           else if flow.Fall? then JsonState() == Cleared(old(JsonState())) && r.next == OnNext(JsonState(), c).next
           else Did(r, flow)
    {
      var isWord := WordChar(c);
      if isWord {
        if valueLen + 1 >= GENERIC_BUFLEN {
          return Leave(1);
        }
        AppendValue(c);
        return NextByte;
      }
      if IsSpace(c) {
        return NextByte;
      }
      if c == ',' || c == '}' || c == ']' {
        var stopped := MakeCallback(if c == '}' then Last else Normal);
        if stopped {
          return Leave(1);
        }
        FinishValue();
        return Fall;
      } else {
        return Leave(1);
      }
    }

    method CloseArray()
      requires Shape() && depth > 0 && isArray[depth - 1]
      modifies this`jMode, this`depth
      ensures Shape() && JsonState() == Closed(old(JsonState()), Value)
    {
      depth := depth - 1;
      assert isArray[..depth] == old(JsonState()).stack[..depth];
      if depth <= 0 {
        jMode := RootEnd;
      } else {
        jMode := if isArray[depth] then Value else KeyName;
      }
    }

    method CloseObject()
      requires Shape() && depth > 0
      modifies this`jMode, this`depth, this`serverSlot, this`playerSlot
      ensures Shape()
      ensures var closed := Closed(CountClosedObject(old(JsonState())), KeyName);
        JsonState() ==
          if closed.stack != [] && closed.stack[|closed.stack| - 1] then closed.(mode := Value) else closed
    {
      if depth == 3 {
        serverSlot := serverSlot + 1;
        playerSlot := 0;
      } else {
        if depth == 5 {
          playerSlot := playerSlot + 1;
        }
      }
      depth := depth - 1;
      assert isArray[..depth] == old(JsonState()).stack[..depth];
      if depth <= 0 {
        jMode := RootEnd;
      } else {
        jMode := if isArray[depth - 1] then Value else KeyName;
      }
    }

    /** EXPECT_NEXT. The reads of `is_array[depth-1]` are in range because a bracket is open. */
    method AtNext(c: char) returns (flow: Flow)
      requires Shape() && mode == Json && jMode == Next && depth > 0
      modifies this`jMode, this`depth, this`nameLen, this`valueLen, this`serverSlot, this`playerSlot, name, value
      ensures Shape()
      ensures if flow.Fall? then OnNext(old(JsonState()), c) == Fail<JState>() && jMode == Next
              else Did(OnNext(old(JsonState()), c), flow)
    {
      if isArray[depth - 1] {
        if c == ',' {
          ClearName();
          jMode := Value;
          return NextByte;
        }
        if c == ']' {
          CloseArray();
          return NextByte;
        }
      } else {
        if c == ',' {
          ClearName();
          ClearValue();
          jMode := KeyName;
          return NextByte;
        }
        if c == '}' {
          CloseObject();
          return NextByte;
        }
      }
      if IsSpace(c) {
        return NextByte;
      }
      return Fall;
    }

    /** The last tests of the block, which others fall through to. */
    method AtEnding(c: char) returns (flow: Flow)
      requires Shape() && mode == Json && (jMode == Next || jMode == RootEnd) && (jMode == Next ==> depth > 0)
      modifies this`jMode, this`depth, this`nameLen, this`valueLen, this`serverSlot, this`playerSlot, name, value
      ensures Shape() && !flow.Fall? && Did(StepJson(old(JsonState()), c), flow)
    {
      if jMode == Next {
        flow := AtNext(c);
        if !flow.Fall? {
          return;
        }
      }
      if jMode == RootEnd {
        if IsSpace(c) {
          return NextByte;
        }
        if c == '}' {
          return Leave(0);
        }
        return Leave(1);
      }
      return Leave(1);
    }

    /** EXPECT_READ_VALUE, and the tests that a bare value falls through to. */
    method AtReadValue(c: char) returns (flow: Flow)
      requires Valid() && mode == Json && jMode == ReadValue
      modifies this`jMode, this`depth, this`inQuote, this`inEscape, this`trace, this`nameLen, this`valueLen
      modifies this`serverSlot, this`playerSlot, name, value
      ensures Shape() && !flow.Fall?
      ensures var r := StepJson(old(JsonState()), c);
        trace == old(trace) + r.out
        && if r.out != [] && stop(trace) then flow == Leave(1) else Did(r, flow)
    {
      if inQuote {
        flow := InQuotedValue(c);
        return;
      }
      flow := InBareValue(c);
      if !flow.Fall? {
        return;
      }
      flow := AtEnding(c);
    }

    /** The whole READING_JSON block, after the length test. */
    method JsonByte(c: char) returns (flow: Flow)
      requires Valid() && mode == Json
      modifies this`jMode, this`depth, this`inQuote, this`inEscape, this`trace, this`nameLen, this`valueLen
      modifies this`serverSlot, this`playerSlot, name, value, isArray
      ensures Shape() && !flow.Fall?
      ensures var r := StepJson(old(JsonState()), c);
        trace == old(trace) + r.out
        && if r.out != [] && stop(trace) then flow == Leave(1) else Did(r, flow)
    {
      if jMode == RootStart {
        flow := AtRootStart(c);
        return;
      }
      if jMode == KeyName {
        KeyKeepsGood(JsonState(), c);
        flow := AtKeyName(c);
        if !flow.Fall? {
          return;
        }
      }
      if jMode == KeySep {
        flow := AtKeySep(c);
        return;
      }
      if jMode == Value {
        flow := AtValue(c);
        if !flow.Fall? {
          return;
        }
      }
      if jMode == ReadValue {
        flow := AtReadValue(c);
        return;
      }
      flow := AtEnding(c);
    }

    // ------------------------------------------------------------ HTTP states

    ghost predicate DidHttp(r: Reaction<State>, flow: Flow)
      requires Shape()
      reads this, name, value, isArray
    {
      && r.out == [] && !flow.Fall?
      && (flow.NextByte? ==> r.next == Go(Abs()))
      && (flow.Leave? ==> r.next == Return(flow.code))
    }

    /** Ends the name at its last byte, the '\r', and reads it as a C string. */
    method CutName() returns (line: string)
      requires Shape() && nameLen > 0
      modifies name
      ensures Shape() && SetName(Abs(), "") == SetName(old(Abs()), "")
      ensures line == CStr(old(name[..nameLen - 1]))
    {
      ghost var text := name[..nameLen - 1];
      name[nameLen - 1] := NUL;
      line := CopyString(name, GENERIC_BUFLEN);
      assert name[..] == text + name[nameLen - 1..];
      CopiedWhole(text, name[nameLen - 1..]);
    }

    method CutValue() returns (line: string)
      requires Shape() && valueLen > 0
      modifies value
      ensures Shape() && SetValue(Abs(), "") == SetValue(old(Abs()), "")
      ensures line == CStr(old(value[..valueLen - 1]))
    {
      ghost var text := value[..valueLen - 1];
      value[valueLen - 1] := NUL;
      line := CopyString(value, GENERIC_BUFLEN);
      assert value[..] == text + value[valueLen - 1..];
      CopiedWhole(text, value[valueLen - 1..]);
    }

    method HeaderByte(c: char) returns (flow: Flow)
      requires Valid() && mode == HttpHeader
      modifies this`mode, this`nameLen, name
      ensures Shape() && DidHttp(OnHttpHeader(old(Abs()), c), flow)
    {
      if nameLen > 0 && c == '\n' && name[nameLen - 1] == '\r' {
        mode := HttpName;
        assert name[..nameLen][..nameLen - 1] == name[..nameLen - 1];
        var line := CutName();
        if !IsOkLine(line) {
          return Leave(1);
        }
        ClearName();
        return NextByte;
      }
      if nameLen + 1 >= GENERIC_BUFLEN {
        return Leave(1);
      }
      AppendName(c);
      return NextByte;
    }

    method HeaderNameByte(c: char) returns (flow: Flow)
      requires Valid() && mode == HttpName
      modifies this`mode, this`nameLen, name
      ensures Shape() && DidHttp(OnHttpName(old(Abs()), c), flow)
    {
      if c == '\r' {
        if nameLen + 1 >= GENERIC_BUFLEN {
          return Leave(1);
        }
        AppendName(c);
        return NextByte;
      }
      if nameLen > 0 && c == '\n' && name[nameLen - 1] == '\r' {
        mode := Json;
        ClearName();
        return NextByte;
      }
      if IsSpace(c) && nameLen == 0 {
        return NextByte;
      }
      if c == ':' {
        mode := HttpValue;
        return NextByte;
      }
      if nameLen + 1 >= GENERIC_BUFLEN {
        return Leave(1);
      }
      AppendName(c);
      return NextByte;
    }

    /** A header line is complete: note its length if it is a Content-Length, and forget it. */
    method FinishHeader()
      requires Shape() && valueLen > 0
      modifies this`contentLength, this`nameLen, this`valueLen, name, value
      ensures Shape()
      ensures Abs() == SetName(SetValue(old(Abs()), ""), "").(contentLength :=
        NewContentLength(old(contentLength), old(name[..nameLen]), old(value[..valueLen - 1])))
    {
      CStrTwice(value[..valueLen - 1]);
      assert name[..] == name[..nameLen] + name[nameLen..];
      CopiedWhole(name[..nameLen], name[nameLen..]);
      var val := CutValue();
      var key := CopyString(name, GENERIC_BUFLEN);
      if EqualNoCase(key, "Content-Length") {
        contentLength := Atoi(val) % DWORD;
      }
      ClearValue();
      ClearName();
    }

    method HeaderValueByte(c: char) returns (flow: Flow)
      requires Valid() && mode == HttpValue
      modifies this`mode, this`contentLength, this`nameLen, this`valueLen, name, value
      ensures Shape() && DidHttp(OnHttpValue(old(Abs()), c), flow)
    {
      if valueLen > 0 && c == '\n' && value[valueLen - 1] == '\r' {
        mode := HttpName;
        assert value[..valueLen][..valueLen - 1] == value[..valueLen - 1];
        FinishHeader();
        return NextByte;
      }
      if IsSpace(c) && valueLen == 0 {
        return NextByte;
      }
      if valueLen + 1 >= GENERIC_BUFLEN {
        return Leave(1);
      }
      AppendValue(c);
      return NextByte;
    }

    /** The length test, and then the READING_JSON block. */
    method BodyByte(c: char) returns (flow: Flow)
      requires Valid() && mode == Json
      modifies this`jsonLen, this`jMode, this`depth, this`inQuote, this`inEscape, this`trace, this`nameLen
      modifies this`valueLen, this`serverSlot, this`playerSlot, name, value, isArray
      ensures Shape() && !flow.Fall?
      ensures var r := StepWith(stop, old(trace), old(Abs()), c);
        && trace == old(trace) + r.out
        && (flow.NextByte? ==> r.next == Go(Abs()))
        && (flow.Leave? ==> r.next == Return(flow.code))
    {
      jsonLen := (jsonLen + 1) % DWORD;
      if contentLength != 0 && jsonLen >= contentLength {
        return Leave(0);
      }
      flow := JsonByte(c);
    }

    /** One turn of the inner loop. */
    method Byte(c: char) returns (flow: Flow)
      requires Valid()
      modifies this, name, value, isArray
      ensures Shape() && !flow.Fall?
      ensures var r := StepWith(stop, old(trace), old(Abs()), c);
        && trace == old(trace) + r.out
        && (flow.NextByte? ==> Valid() && r.next == Go(Abs()))
        && (flow.Leave? ==> r.next == Return(flow.code))
    {
      StepKeepsGood(Abs(), c);
      if mode == Json {
        flow := BodyByte(c);
        return;
      }
      if mode == HttpHeader {
        flow := HeaderByte(c);
        return;
      }
      if mode == HttpName {
        flow := HeaderNameByte(c);
        return;
      }
      flow := HeaderValueByte(c);
    }
  }

  lemma RunWithByte(stop: Consumer, done: seq<Record>, s: State, chunk: string, i: nat, rest: string)
    requires i < |chunk|
    ensures RunWith(stop, done, s, chunk[i..] + rest) ==
      var r := StepWith(stop, done, s, chunk[i]);
      if r.next.Return? then Run(done + r.out, r.next)
      else RunWith(stop, done + r.out, r.next.state, chunk[i + 1..] + rest)
  {
    assert (chunk[i..] + rest)[1..] == chunk[i + 1..] + rest;
  }

  /** The inner loop of `parse_data`, over one buffer. `rest` is what later reads will deliver. */
  method ReadBuffer(bri: BufferedReaderInfo, p: Parser, ghost rest: string) returns (flow: Flow)
    requires bri.Valid() && p.Valid()
    requires bri.buffer != p.name && bri.buffer != p.value && (bri as object) != p
    modifies p, p.name, p.value, p.isArray
    ensures !flow.Fall? && (flow.NextByte? ==> p.Valid())
    ensures RunWith(p.stop, old(p.trace), old(p.Abs()), bri.buffer[..bri.received] + rest) ==
      if flow.Leave? then Run(p.trace, Return(flow.code)) else RunWith(p.stop, p.trace, p.Abs(), rest)
  {
    ghost var chunk := bri.buffer[..bri.received];
    ghost var goal := RunWith(p.stop, p.trace, p.Abs(), chunk + rest);
    var i := 0;
    assert chunk[0..] + rest == chunk + rest;
    while i < bri.received
      invariant i <= bri.received == |chunk| && p.Valid() && bri.buffer[..bri.received] == chunk
      invariant goal == RunWith(p.stop, p.trace, p.Abs(), chunk[i..] + rest)
    {
      RunWithByte(p.stop, p.trace, p.Abs(), chunk, i, rest);
      flow := p.Byte(bri.buffer[i]);
      if flow.Leave? {
        return;
      }
      i := i + 1;
    }
    assert chunk[i..] + rest == rest;
    return NextByte;
  }

  /** `parse_data`. */
  method ParseData(bri: BufferedReaderInfo, usingHttp: bool, stop: Consumer)
    returns (code: int, trace: seq<Record>, ghost end: Outcome<State>)
    requires bri.Valid()
    modifies bri, bri.buffer
    ensures Run(trace, end) == Parse(stop, usingHttp, old(bri.pending)) && code == ExitCode(end)
  {
    var p := new Parser(usingHttp, stop);
    ghost var input := bri.pending;
    ghost var goal := RunWith(stop, [], Initial(usingHttp), Delivered(input));
    while true
      invariant bri.Valid() && p.Valid() && p.stop == stop
      invariant fresh(p) && fresh(p.name) && fresh(p.value) && fresh(p.isArray)
      invariant goal == RunWith(stop, p.trace, p.Abs(), Delivered(bri.pending))
      invariant Broken(bri.pending) == Broken(input)
      decreases |bri.pending|
    {
      var ok := bri.Fill();
      if !ok {
        return 1, p.trace, Return(1);
      }
      if bri.received == 0 {
        break;
      }
      var flow := ReadBuffer(bri, p, Delivered(bri.pending));
      if flow.Leave? {
        return flow.code, p.trace, Return(flow.code);
      }
    }
    return 0, p.trace, Go(p.Abs());
  }

  /** How far `ScanHTTP` gets before it can read: each failure is reported and ends the scan. */
  datatype Connection = StartupFailed | LookupFailed | SocketFailed | ConnectFailed | SendFailed | Connected

  method ScanFile(fileOpened: bool, bri: BufferedReaderInfo, stop: Consumer) returns (code: int, calls: seq<Call>)
    requires bri.Valid()
    modifies bri, bri.buffer
    ensures !fileOpened ==> code == 1 && calls == [Error]
    ensures fileOpened ==> var r := Parse(stop, false, old(bri.pending));
      code == ExitCode(r.end) && calls == DataCalls(r.trace) + [if code == 0 then Complete else Error]
  {
    if !fileOpened {
      return 1, [Error];
    }
    var trace;
    ghost var end;
    code, trace, end := ParseData(bri, false, stop);
    calls := DataCalls(trace) + [if code == 0 then Complete else Error];
  }

  method ScanHTTP(connection: Connection, bri: BufferedReaderInfo, stop: Consumer)
    returns (code: int, calls: seq<Call>)
    requires bri.Valid()
    modifies bri, bri.buffer
    ensures !connection.Connected? ==> code == 1 && calls == [Error]
    ensures connection.Connected? ==> var r := Parse(stop, true, old(bri.pending));
      code == ExitCode(r.end) && calls == DataCalls(r.trace) + [if code == 0 then Complete else Error]
  {
    if !connection.Connected? {
      return 1, [Error];
    }
    var trace;
    ghost var end;
    code, trace, end := ParseData(bri, true, stop);
    calls := DataCalls(trace) + [if code == 0 then Complete else Error];
  }

  /** A padded buffer is copied up to its terminator. */
  lemma CopiedWhole(text: string, pad: string)
    requires |text + pad| <= GENERIC_BUFLEN && (pad != "" ==> pad[0] == NUL)
    ensures Copied(text + pad, GENERIC_BUFLEN) == CStr(text)
  {
    CStrPadded(text, pad);
    CStrEndsAtNul(text + pad);
    CopiedIsCut(text + pad, GENERIC_BUFLEN);
  }

  lemma CStrTwice(s: string)
    ensures CStr(CStr(s)) == CStr(s) && |CStr(s)| <= |s|
  {
    CStrEndsAtNul(s);
    CStrIsWhole(CStr(s));
  }
}
