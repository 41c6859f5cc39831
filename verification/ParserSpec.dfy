/** One byte at a time, what `parse_data` does (bzccnet.c): the state it keeps, the step it takes,
    and the callbacks it makes. */
module ParserSpec {
  import opened CStrings

  const GENERIC_BUFLEN := 1024
  const MAX_DEPTH := 6
  const KEY_LEN := 32
  const VALUE_LEN := 512
  const DWORD := 0x1_0000_0000

  /** `KVI_STATUS_NORMAL` and `KVI_STATUS_LAST`, the two statuses of a data callback. */
  datatype Status = Normal | Last

  /** The `KeyValueInfo` handed to one data callback. */
  datatype Record = Record(status: Status, isPlayer: bool, key: string, value: string, server: nat, player: nat)

  datatype Mode = HttpHeader | HttpName | HttpValue | Json

  datatype JMode = RootStart | KeyName | KeySep | Value | ReadValue | Next | RootEnd

  /** The variables that the JSON states use. `stack` is `is_array[0..depth]`, outermost bracket first;
      `name` and `value` are the first `name_len` and `value_len` bytes of the two buffers. */
  datatype JState = JState(mode: JMode, name: string, value: string, stack: seq<bool>,
                           inQuote: bool, inEscape: bool, server: nat, player: nat)

  /** All of the parser's variables. */
  datatype State = State(mode: Mode, contentLength: nat, jsonLength: nat, json: JState)

  datatype Outcome<T> = Go(state: T) | Return(code: int)

  /** What one byte causes: at most one data callback, and then either another byte or a return. */
  datatype Reaction<T> = Reaction(out: seq<Record>, next: Outcome<T>)

  function Continue<T>(s: T): Reaction<T> { Reaction([], Go(s)) }

  function Fail<T>(): Reaction<T> { Reaction([], Return(1)) }

  const INITIAL_JSON := JState(RootStart, "", "", [], false, false, 0, 0)

  function Initial(http: bool): State {
    State(if http then HttpHeader else Json, 0, 0, INITIAL_JSON)
  }

  const WORD_WHITELIST := ".-!@#$%^&*+="

  predicate IsWordChar(c: char) {
    IsAlnum(c) || c == '.' || c == '-' || c == '!' || c == '@' || c == '#' || c == '$' || c == '%' || c == '^'
    || c == '&' || c == '*' || c == '+' || c == '='
  }

  // ---------------------------------------------------------------- JSON states

  /** The callback made when a value ends, if the current depth is that of a server or of a player. */
  function Emit(s: JState, status: Status): (out: seq<Record>)
    ensures |out| <= 1
  {
    if |s.stack| == 3 || |s.stack| == 5 then
      [Record(status, |s.stack| == 5, Copied(s.name, KEY_LEN), Copied(s.value, VALUE_LEN), s.server, s.player)]
    else []
  }

  function OnRootStart(s: JState, c: char): Reaction<JState> {
    if c == '{' then Continue(s.(mode := KeyName, stack := s.stack + [false]))
    else if IsSpace(c) then Continue(s)
    else Fail()
  }

  function OnKeyName(s: JState, c: char): Reaction<JState> {
    if s.inQuote then
      if c == '"' then Continue(s.(inQuote := false, mode := KeySep))
      else if c == '\n' || c == '\r' then Fail()
      else if |s.name| + 1 >= GENERIC_BUFLEN then Fail()
      else Continue(s.(name := s.name + [c]))
    else if c == '"' then Continue(s.(inQuote := true))
    else if IsSpace(c) then Continue(s)
    else if c == '}' then OnNext(s.(mode := Next), c)
    else Fail()
  }

  function OnKeySep(s: JState, c: char): Reaction<JState> {
    if c == ':' then Continue(s.(mode := Value))
    else if IsSpace(c) then Continue(s)
    else Fail()
  }

  function OnValue(s: JState, c: char): Reaction<JState> {
    if c == '"' then Continue(s.(inQuote := true, mode := ReadValue))
    else if IsWordChar(c) then Continue(s.(value := s.value + [c], mode := ReadValue))
    else if c == '[' || c == '{' then
      if |s.stack| + 1 >= MAX_DEPTH then Fail()
      else Continue(s.(mode := if c == '[' then Value else KeyName, stack := s.stack + [c == '['], name := ""))
    else if IsSpace(c) then Continue(s)
    else if c == ',' || c == '}' || c == ']' then OnNext(s.(mode := Next), c)
    else Fail()
  }

  /** The byte that an escape stands for, or the byte itself where the escape is not one the parser knows. */
  predicate IsEscape(c: char) {
    c == '"' || c == '\\' || c == 'r' || c == 'n' || c == 't'
  }

  function Unescape(c: char): char {
    if c == 'r' then '\r' else if c == 'n' then '\n' else if c == 't' then '\t' else c
  }

  function AddToValue(s: JState, c: char): Reaction<JState> {
    if |s.value| + 1 >= GENERIC_BUFLEN then Fail() else Continue(s.(value := s.value + [c]))
  }

  function Cleared(s: JState): JState {
    s.(name := "", value := "", mode := Next)
  }

  function OnReadQuoted(s: JState, c: char): Reaction<JState> {
    if s.inEscape then
      if IsEscape(c) then AddToValue(s.(inEscape := false), Unescape(c)) else Fail()
    else if c == '"' then Reaction(Emit(s, Normal), Go(Cleared(s.(inQuote := false))))
    else if c == '\n' || c == '\r' then Fail()
    else if c == '\\' then Continue(s.(inEscape := true))
    else AddToValue(s, c)
  }

  function OnReadWord(s: JState, c: char): Reaction<JState> {
    if IsWordChar(c) then AddToValue(s, c)
    else if IsSpace(c) then Continue(s)
    else if c == ',' || c == '}' || c == ']' then
      Reaction(Emit(s, if c == '}' then Last else Normal), OnNext(Cleared(s), c).next)
    else Fail()
  }

  /** The state after the innermost bracket is closed, with `mode` as the closing branch sets it. */
  function Closed(s: JState, mode: JMode): JState
    requires s.stack != []
  {
    var outer := s.stack[..|s.stack| - 1];
    s.(stack := outer, mode := if outer == [] then RootEnd else mode)
  }

  function CountClosedObject(s: JState): JState {
    if |s.stack| == 3 then s.(server := s.server + 1, player := 0)
    else if |s.stack| == 5 then s.(player := s.player + 1)
    else s
  }

  /** EXPECT_NEXT, and the EXPECT_ROOT_END test it falls through to: `mode` is Next, so that test fails. */
  function OnNext(s: JState, c: char): (r: Reaction<JState>)
    ensures r.out == []
  {
    if s.stack == [] then Fail()
    else if s.stack[|s.stack| - 1] && c == ',' then Continue(s.(name := "", mode := Value))
    else if s.stack[|s.stack| - 1] && c == ']' then Continue(Closed(s, Value))
    else if !s.stack[|s.stack| - 1] && c == ',' then Continue(s.(name := "", value := "", mode := KeyName))
    else if !s.stack[|s.stack| - 1] && c == '}' then
      var closed := Closed(CountClosedObject(s), KeyName);
      Continue(if closed.stack != [] && closed.stack[|closed.stack| - 1] then closed.(mode := Value) else closed)
    else if IsSpace(c) then Continue(s)
    else Fail()
  }

  function OnRootEnd(s: JState, c: char): Reaction<JState> {
    if IsSpace(c) then Continue(s)
    else if c == '}' then Reaction([], Return(0))
    else Fail()
  }

  function StepJson(s: JState, c: char): Reaction<JState> {
    match s.mode
    case RootStart => OnRootStart(s, c)
    case KeyName => OnKeyName(s, c)
    case KeySep => OnKeySep(s, c)
    case Value => OnValue(s, c)
    case ReadValue => if s.inQuote then OnReadQuoted(s, c) else OnReadWord(s, c)
    case Next => OnNext(s, c)
    case RootEnd => OnRootEnd(s, c)
  }

  // ---------------------------------------------------------------- HTTP states

  function Lift(s: State, r: Reaction<JState>): Reaction<State> {
    Reaction(r.out, match r.next case Go(j) => Go(s.(json := j)) case Return(code) => Return(code))
  }

  predicate EndsLine(s: string, c: char) {
    s != "" && c == '\n' && s[|s| - 1] == '\r'
  }

  /** Whether the status line ends in "200 OK", without regard to case. */
  predicate IsOkLine(line: string) {
    |line| >= 6 && EqualNoCase(line[|line| - 6..], "200 OK")
  }

  function SetName(s: State, name: string): State { s.(json := s.json.(name := name)) }

  function SetValue(s: State, value: string): State { s.(json := s.json.(value := value)) }

  function AddToName(s: State, c: char): Reaction<State> {
    if |s.json.name| + 1 >= GENERIC_BUFLEN then Fail() else Continue(SetName(s, s.json.name + [c]))
  }

  function OnHttpHeader(s: State, c: char): Reaction<State> {
    var name := s.json.name;
    if EndsLine(name, c) then
      if IsOkLine(CStr(name[..|name| - 1])) then Continue(SetName(s, "").(mode := HttpName)) else Fail()
    else AddToName(s, c)
  }

  function OnHttpName(s: State, c: char): Reaction<State> {
    var name := s.json.name;
    if c == '\r' then AddToName(s, c)
    else if EndsLine(name, c) then Continue(SetName(s, "").(mode := Json))
    else if IsSpace(c) && name == "" then Continue(s)
    else if c == ':' then Continue(s.(mode := HttpValue))
    else AddToName(s, c)
  }

  /** The `content_length` that a finished header leaves: an `int` stored in a DWORD. */
  function NewContentLength(current: nat, name: string, value: string): nat {
    if EqualNoCase(CStr(name), "Content-Length") then Atoi(value) % DWORD else current
  }

  function OnHttpValue(s: State, c: char): Reaction<State> {
    var name, value := s.json.name, s.json.value;
    if EndsLine(value, c) then
      var length := NewContentLength(s.contentLength, name, value[..|value| - 1]);
      Continue(SetName(SetValue(s, ""), "").(mode := HttpName, contentLength := length))
    else if IsSpace(c) && value == "" then Continue(s)
    else if |value| + 1 >= GENERIC_BUFLEN then Fail()
    else Continue(SetValue(s, value + [c]))
  }

  function Step(s: State, c: char): Reaction<State> {
    match s.mode
    case HttpHeader => OnHttpHeader(s, c)
    case HttpName => OnHttpName(s, c)
    case HttpValue => OnHttpValue(s, c)
    case Json =>
      var length := (s.jsonLength + 1) % DWORD;
      if s.contentLength != 0 && length >= s.contentLength then Reaction([], Return(0))
      else Lift(s.(jsonLength := length), StepJson(s.json, c))
  }

  // ---------------------------------------------------------------- runs

  /** The data callbacks of a run, oldest first, and how it stands when the bytes are used up. */
  datatype Run<T> = Run(trace: seq<Record>, end: Outcome<T>)

  function Prepend<T>(out: seq<Record>, r: Run<T>): Run<T> { Run(out + r.trace, r.end) }

  function RunJson(s: JState, bytes: string): Run<JState>
    decreases |bytes|
  {
    if bytes == "" then Run([], Go(s))
    else
      var r := StepJson(s, bytes[0]);
      if r.next.Return? then Run(r.out, r.next) else Prepend(r.out, RunJson(r.next.state, bytes[1..]))
  }

  /** The run when no callback ever asks the parser to stop. */
  function RunAll(s: State, bytes: string): Run<State>
    decreases |bytes|
  {
    if bytes == "" then Run([], Go(s))
    else
      var r := Step(s, bytes[0]);
      if r.next.Return? then Run(r.out, r.next) else Prepend(r.out, RunAll(r.next.state, bytes[1..]))
  }

  /** A callback, as the parser sees it: given every callback so far, the newest last, does it return nonzero?
      Any consumer is of this form, and so is a user who may press Stop between any two callbacks. */
  type Consumer = seq<Record> -> bool

  /** One byte, with the callback answering. `done` is the trace so far. */
  function StepWith(stop: Consumer, done: seq<Record>, s: State, c: char): (r: Reaction<State>) {
    var r := Step(s, c);
    if r.out != [] && stop(done + r.out) then Reaction(r.out, Return(1)) else r
  }

  /** The run with a consumer; the trace of the result includes `done`. */
  function RunWith(stop: Consumer, done: seq<Record>, s: State, bytes: string): Run<State>
    decreases |bytes|
  {
    if bytes == "" then Run(done, Go(s))
    else
      var r := StepWith(stop, done, s, bytes[0]);
      if r.next.Return? then Run(done + r.out, r.next)
      else RunWith(stop, done + r.out, r.next.state, bytes[1..])
  }

  // ---------------------------------------------------------------- reading

  /** One call of the reader: `ReadFile` or `recv` fails, or delivers bytes, none at the end of the stream. */
  datatype Read = Failed | Received(bytes: string)

  /** Everything delivered before the stream ends or a read fails. */
  function Delivered(input: seq<Read>): string {
    if input == [] || input[0].Failed? || input[0].bytes == "" then ""
    else input[0].bytes + Delivered(input[1..])
  }

  /** Whether the stream ends in a failed read. */
  predicate Broken(input: seq<Read>) {
    input != [] && (input[0].Failed? || (input[0].bytes != "" && Broken(input[1..])))
  }

  /** Return value, callbacks, and, unless it returned, the parser's last state. */
  function Parse(stop: Consumer, http: bool, input: seq<Read>): Run<State> {
    var r := RunWith(stop, [], Initial(http), Delivered(input));
    if r.end.Go? && Broken(input) then Run(r.trace, Return(1)) else r
  }

  /** A run that is still going when the stream ends returns 0. */
  function ExitCode<T>(end: Outcome<T>): int {
    match end case Go(_) => 0 case Return(code) => code
  }
}
