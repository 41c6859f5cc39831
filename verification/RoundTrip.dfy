/** Printing a document and parsing the bytes is the same as reading the document. */
module RoundTrip {
  import opened CStrings
  import opened ParserSpec
  import opened ParserInvariants
  import opened Document

  // ---------------------------------------------------------------- one token

  lemma ReadByte(s: JState, c: char, rest: string)
    ensures RunJson(s, [c] + rest) ==
      var r := StepJson(s, c);
      if r.next.Return? then Run(r.out, r.next) else Prepend(r.out, RunJson(r.next.state, rest))
  {
    assert ([c] + rest)[1..] == rest;
  }

  lemma {:induction false} SkipGap(s: JState, gap: string, rest: string)
    requires AllSpace(gap) && !s.inQuote && (s.mode == Next ==> s.stack != [])
    ensures RunJson(s, gap + rest) == RunJson(s, rest)
  {
    if gap == "" {
      assert gap + rest == rest;
    } else {
      assert gap + rest == [gap[0]] + (gap[1..] + rest);
      ReadByte(s, gap[0], gap[1..] + rest);
      assert StepJson(s, gap[0]) == Continue(s);
      SkipGap(s, gap[1..], rest);
    }
  }

  /** The rest of a key and its closing quote. */
  lemma {:induction false} ReadKey(s: JState, key: string, rest: string)
    requires s.mode == KeyName && s.inQuote && |s.name| < GENERIC_BUFLEN && '"' !in key
    ensures RunJson(s, key + ['"'] + rest) ==
      if |s.name| + |key| < GENERIC_BUFLEN && '\n' !in key && '\r' !in key then
        RunJson(s.(name := s.name + key, inQuote := false, mode := KeySep), rest)
      else Run([], Return(1))
    decreases |key|
  {
    if key == "" {
      assert key + ['"'] + rest == ['"'] + rest;
      assert s.name + key == s.name;
      ReadByte(s, '"', rest);
    } else {
      var c, tail := key[0], key[1..];
      assert key + ['"'] + rest == [c] + (tail + ['"'] + rest);
      assert key == [c] + tail;
      ReadByte(s, c, tail + ['"'] + rest);
      if c != '\n' && c != '\r' && |s.name| + 1 < GENERIC_BUFLEN {
        ReadKey(s.(name := s.name + [c]), tail, rest);
        assert s.name + [c] + tail == s.name + key;
      }
    }
  }

  /** One character of a quoted value, in its escaped form. */
  lemma ReadTextChar(s: JState, c: char, rest: string)
    requires s.mode == ReadValue && s.inQuote && !s.inEscape && |s.value| < GENERIC_BUFLEN
    ensures RunJson(s, EscapeChar(c) + rest) ==
      if |s.value| + 1 < GENERIC_BUFLEN then RunJson(s.(value := s.value + [c]), rest) else Run([], Return(1))
  {
    var e := EscapeChar(c);
    if |e| == 1 {
      ReadByte(s, c, rest);
    } else {
      assert e == [e[0]] + [e[1]] && e[0] == '\\' && Unescape(e[1]) == c && IsEscape(e[1]);
      assert e + rest == [e[0]] + ([e[1]] + rest);
      ReadByte(s, e[0], [e[1]] + rest);
      ReadByte(s.(inEscape := true), e[1], rest);
    }
  }

  lemma EscapeFirst(t: string, rest: string)
    requires t != ""
    ensures Escape(t) + ['"'] + rest == EscapeChar(t[0]) + (Escape(t[1..]) + ['"'] + rest)
  {
    var c, tail := EscapeChar(t[0]), Escape(t[1..]);
    assert c + tail + ['"'] + rest == c + (tail + ['"'] + rest);
  }

  lemma ReadQuote(s: JState, rest: string)
    requires s.mode == ReadValue && s.inQuote && !s.inEscape
    ensures RunJson(s, Escape("") + ['"'] + rest) ==
      Prepend(Emit(s, Normal), RunJson(Cleared(s.(inQuote := false)), rest))
  {
    assert Escape("") + ['"'] + rest == ['"'] + rest;
    ReadByte(s, '"', rest);
  }

  /** The run over the rest of a quoted value, its closing quote and what follows. */
  function TextRead(s: JState, t: string, rest: string): Run<JState> {
    var done := s.(value := s.value + t);
    if |done.value| < GENERIC_BUFLEN then
      Prepend(Emit(done, Normal), RunJson(Cleared(done.(inQuote := false)), rest))
    else Run([], Return(1))
  }

  lemma TextReadFirst(s: JState, t: string, rest: string)
    requires t != ""
    ensures TextRead(s, t, rest) == TextRead(s.(value := s.value + [t[0]]), t[1..], rest)
  {
    assert s.value + [t[0]] + t[1..] == s.value + t;
  }

  lemma {:induction false} ReadText(s: JState, t: string, rest: string)
    requires s.mode == ReadValue && s.inQuote && !s.inEscape && |s.value| < GENERIC_BUFLEN
    ensures RunJson(s, Escape(t) + ['"'] + rest) == TextRead(s, t, rest)
    decreases |t|
  {
    if t == "" {
      assert s.value + t == s.value;
      ReadQuote(s, rest);
    } else {
      EscapeFirst(t, rest);
      ReadTextChar(s, t[0], Escape(t[1..]) + ['"'] + rest);
      if |s.value| + 1 < GENERIC_BUFLEN {
        ReadText(s.(value := s.value + [t[0]]), t[1..], rest);
        TextReadFirst(s, t, rest);
      }
    }
  }

  /** The rest of a bare value. */
  lemma {:induction false} ReadWordChars(s: JState, w: string, rest: string)
    requires s.mode == ReadValue && !s.inQuote && |s.value| < GENERIC_BUFLEN && AllWordChars(w)
    ensures RunJson(s, w + rest) ==
      if |s.value| + |w| < GENERIC_BUFLEN then RunJson(s.(value := s.value + w), rest) else Run([], Return(1))
    decreases |w|
  {
    if w == "" {
      assert w + rest == rest && s.value + w == s.value;
    } else {
      assert w + rest == [w[0]] + (w[1..] + rest);
      ReadByte(s, w[0], w[1..] + rest);
      if |s.value| + 1 < GENERIC_BUFLEN {
        ReadWordChars(s.(value := s.value + [w[0]]), w[1..], rest);
        assert s.value + [w[0]] + w[1..] == s.value + w;
      }
    }
  }

  // ---------------------------------------------------------------- values

  /** About to read a value: in an array, or after a member's colon. */
  predicate AtValue(s: JState) {
    GoodJson(s) && s.mode == Value
  }

  predicate AtMember(s: JState) {
    GoodJson(s) && s.mode == KeyName && !s.inQuote && s.name == ""
  }

  predicate InArray(s: JState)
    requires s.stack != []
  {
    s.stack[|s.stack| - 1]
  }

  /** `c` may follow a value here. */
  predicate Ends(s: JState, c: char)
    requires s.stack != []
  {
    c == ',' || c == (if InArray(s) then ']' else '}')
  }

  function SlotsOf(s: JState): Slots { Slots(s.server, s.player) }

  /** A value has been read in `s`, and the slots have moved on. */
  function Settled(s: JState, at: Slots): JState {
    s.(mode := Next, name := "", value := "", server := at.server, player := at.player)
  }

  /** The state after the comma or bracket that ends a value. */
  function After(s: JState, at: Slots, c: char): JState
    requires s.stack != [] && Ends(s, c)
  {
    OnNext(Settled(s, at), c).next.state
  }

  /** A run that makes the callbacks of `w` and, if it succeeded, goes on from `next`. */
  function Following(w: Walked, next: JState, rest: string): Run<JState> {
    if w.ok then Prepend(w.trace, RunJson(next, rest)) else Run(w.trace, Return(1))
  }

  /** The comma or bracket that ends a value is never rejected in a settled state. */
  lemma EnderIsAccepted(s: JState, at: Slots, c: char)
    requires s.stack != [] && Ends(s, c)
    ensures OnNext(Settled(s, at), c) == Continue(After(s, at, c))
  {
  }

  /** The reading of a value as far as its own text goes: a bare value is still to be reported, and whatever follows an
      object is still to be seen. */
  function Alone(v: Node, key: string, depth: nat, at: Slots): Walked {
    if v.Word? then Walked(|v.word| < GENERIC_BUFLEN, [], at) else Walk(v, key, depth, true, ']', at)
  }

  /** The state after the text of a value. */
  function AfterValue(s: JState, v: Node, at: Slots): JState
    requires s.stack != []
  {
    match v
    case Text(_) => Settled(s, at)
    case Word(w) => s.(value := w, mode := ReadValue)
    case Arr(_, _) => Settled(s, at).(mode := Value)
    case Obj(_, _) => Settled(s, at).(mode := if InArray(s) then Value else KeyName)
  }

  lemma TextAlone(s: JState, t: string, tail: string)
    requires AtValue(s)
    ensures RunJson(s, Print(Text(t)) + tail) ==
      Following(Alone(Text(t), s.name, |s.stack|, SlotsOf(s)), Settled(s, SlotsOf(s)), tail)
  {
    var body := Escape(t) + ['"'] + tail;
    assert Print(Text(t)) + tail == ['"'] + body;
    var quoted := s.(inQuote := true, mode := ReadValue);
    assert StepJson(s, '"') == Continue(quoted);
    ReadByte(s, '"', body);
    ReadText(quoted, t, tail);
    var done := quoted.(value := t);
    assert quoted.value + t == t;
    if |t| < GENERIC_BUFLEN {
      assert Cleared(done.(inQuote := false)) == Settled(s, SlotsOf(s));
      assert Emit(done, Normal) == Report(|s.stack|, s.name, t, Normal, SlotsOf(s));
    }
  }

  lemma WordAlone(s: JState, word: string, tail: string)
    requires AtValue(s) && word != "" && AllWordChars(word)
    ensures RunJson(s, word + tail) ==
      if |word| < GENERIC_BUFLEN then RunJson(s.(value := word, mode := ReadValue), tail) else Run([], Return(1))
  {
    assert word + tail == [word[0]] + (word[1..] + tail);
    var started := s.(value := [word[0]], mode := ReadValue);
    assert StepJson(s, word[0]) == Continue(started) by { assert s.value + [word[0]] == [word[0]]; }
    ReadByte(s, word[0], word[1..] + tail);
    ReadWordChars(started, word[1..], tail);
    assert started.value + word[1..] == word;
  }

  /** The state inside a bracket that has just been opened. */
  function Inner(s: JState, isArray: bool): JState {
    s.(stack := s.stack + [isArray], name := "", mode := if isArray then Value else KeyName)
  }

  lemma OpenBracket(s: JState, c: char, body: string)
    requires AtValue(s) && (c == '[' || c == '{')
    ensures RunJson(s, [c] + body) ==
      if |s.stack| + 1 >= MAX_DEPTH then Run([], Return(1)) else RunJson(Inner(s, c == '['), body)
  {
    assert StepJson(s, c) == if |s.stack| + 1 >= MAX_DEPTH then Fail() else Continue(Inner(s, c == '['));
    ReadByte(s, c, body);
  }

  /** Closing the bracket again leaves `s`, settled. */
  lemma CloseArray(s: JState, at: Slots)
    requires AtValue(s)
    ensures After(Inner(s, true), at, ']') == Settled(s, at).(mode := Value)
  {
    var inner := Settled(Inner(s, true), at);
    assert inner.stack[..|s.stack|] == s.stack;
    assert OnNext(inner, ']') == Continue(Closed(inner, Value));
  }

  lemma CloseObject(s: JState, at: Slots)
    requires AtValue(s)
    ensures After(Inner(s, false), at, '}') ==
      Settled(s, ClosedObject(|s.stack| + 1, at)).(mode := if InArray(s) then Value else KeyName)
  {
    var inner := Settled(Inner(s, false), at);
    assert inner.stack[..|s.stack|] == s.stack;
    var counted := Settled(Inner(s, false), ClosedObject(|s.stack| + 1, at));
    assert CountClosedObject(inner) == counted;
    assert Closed(counted, KeyName) == Settled(s, ClosedObject(|s.stack| + 1, at)).(mode := KeyName);
  }

  lemma EmptyTrace(r: Run<JState>)
    ensures Prepend([], r) == r
  {
  }

  /** A gap and then the bracket that closes an empty array or object. */
  lemma EndAtOnce(s: JState, gap: string, c: char, tail: string)
    requires GoodJson(s) && !s.inQuote && s.name == "" && AllSpace(gap) && s.stack != []
    requires if InArray(s) then s.mode == Value && c == ']' else s.mode == KeyName && c == '}'
    ensures RunJson(s, gap + ([c] + tail)) == RunJson(After(s, SlotsOf(s), c), tail)
  {
    SkipGap(s, gap, [c] + tail);
    EnderIsAccepted(s, SlotsOf(s), c);
    assert s.(mode := Next) == Settled(s, SlotsOf(s));
    ReadByte(s, c, tail);
  }

  lemma Assoc(a: string, b: string, c: string)
    ensures a + b + c == a + (b + c)
  {
  }

  /** What is printed after the opening bracket. */
  function Inside(v: Node): string
    requires v.Arr? || v.Obj?
  {
    match v
    case Arr(gap, items) => if items.NoItem? then gap + [']'] else PrintItems(items)
    case Obj(gap, members) => if members.NoMember? then gap + ['}'] else PrintMembers(members)
  }

  lemma Opened(v: Node, tail: string)
    requires v.Arr? || v.Obj?
    ensures Print(v) + tail == [if v.Arr? then '[' else '{'] + (Inside(v) + tail)
  {
    Assoc([if v.Arr? then '[' else '{'], Inside(v), tail);
  }

  lemma ArrAlone(s: JState, v: Node, tail: string)
    requires AtValue(s) && v.Arr? && Printable(v)
    ensures var w := Alone(v, s.name, |s.stack|, SlotsOf(s));
      RunJson(s, Print(v) + tail) == Following(w, AfterValue(s, v, w.at), tail)
    decreases v, 0
  {
    Opened(v, tail);
    OpenBracket(s, '[', Inside(v) + tail);
    if |s.stack| + 1 < MAX_DEPTH {
      ArrayInside(Inner(s, true), v, tail);
      CloseArray(s, WalkItems(v.items, |s.stack| + 1, SlotsOf(s)).at);
    }
  }

  /** The inside of an array, empty or not, up to and including its bracket. */
  lemma ArrayInside(s: JState, v: Node, tail: string)
    requires AtValue(s) && InArray(s) && s.name == "" && v.Arr? && Printable(v)
    ensures var w := WalkItems(v.items, |s.stack|, SlotsOf(s));
      RunJson(s, Inside(v) + tail) == Following(w, After(s, w.at, ']'), tail)
    decreases v.items, 4
  {
    if v.items.NoItem? {
      Assoc(v.gap, [']'], tail);
      EndAtOnce(s, v.gap, ']', tail);
      EmptyTrace(RunJson(After(s, SlotsOf(s), ']'), tail));
    } else {
      ItemsRoundTrip(s, v.items, tail);
    }
  }

  lemma ObjAlone(s: JState, v: Node, tail: string)
    requires AtValue(s) && v.Obj? && Printable(v)
    ensures var w := Alone(v, s.name, |s.stack|, SlotsOf(s));
      RunJson(s, Print(v) + tail) == Following(w, AfterValue(s, v, w.at), tail)
    decreases v, 0
  {
    Opened(v, tail);
    OpenBracket(s, '{', Inside(v) + tail);
    if |s.stack| + 1 < MAX_DEPTH {
      ObjectInside(Inner(s, false), v, tail);
      CloseObject(s, WalkMembers(v.members, |s.stack| + 1, SlotsOf(s)).at);
    }
  }

  /** The inside of an object, empty or not, up to and including its brace. */
  lemma ObjectInside(s: JState, v: Node, tail: string)
    requires AtMember(s) && v.Obj? && Printable(v)
    ensures var w := WalkMembers(v.members, |s.stack|, SlotsOf(s));
      RunJson(s, Inside(v) + tail) == Following(w, After(s, w.at, '}'), tail)
    decreases v.members, 4
  {
    if v.members.NoMember? {
      Assoc(v.gap, ['}'], tail);
      EndAtOnce(s, v.gap, '}', tail);
      EmptyTrace(RunJson(After(s, SlotsOf(s), '}'), tail));
    } else {
      MembersRoundTrip(s, v.members, tail);
    }
  }

  /** The text of a value, whatever follows it. */
  lemma {:induction false} ValueAlone(s: JState, v: Node, tail: string)
    requires AtValue(s) && Printable(v)
    ensures var w := Alone(v, s.name, |s.stack|, SlotsOf(s));
      RunJson(s, Print(v) + tail) == Following(w, AfterValue(s, v, w.at), tail)
    decreases v, 1
  {
    match v
    case Text(t) => TextAlone(s, t, tail);
    case Word(w) =>
      WordAlone(s, w, tail);
      EmptyTrace(RunJson(s.(value := w, mode := ReadValue), tail));
    case Arr(_, _) => ArrAlone(s, v, tail);
    case Obj(_, _) => ObjAlone(s, v, tail);
  }

  /** The comma or bracket after a value: it reports a bare value, and is rejected if it is a comma after an object
      inside an object. */
  lemma EndValue(s: JState, v: Node, at: Slots, c: char)
    requires AtValue(s) && Ends(s, c) && (v.Word? ==> at == SlotsOf(s))
    ensures StepJson(AfterValue(s, v, at), c) ==
      if v.Obj? && !InArray(s) && c == ',' then Fail()
      else Reaction(
        if v.Word? then Report(|s.stack|, s.name, v.word, if c == '}' then Last else Normal, at) else [],
        Go(After(s, at, c)))
  {
    var after := AfterValue(s, v, at);
    EnderIsAccepted(s, at, c);
    if v.Word? {
      assert Cleared(after) == Settled(s, at);
    } else {
      assert after.(mode := Next) == Settled(s, at);
    }
  }

  /** A value and the comma or bracket that ends it. */
  lemma ValueRoundTrip(s: JState, v: Node, trail: string, c: char, rest: string)
    requires AtValue(s) && AllSpace(trail) && Ends(s, c) && Printable(v)
    ensures RunJson(s, Print(v) + (trail + ([c] + rest))) ==
      var w := Walk(v, s.name, |s.stack|, InArray(s), c, SlotsOf(s));
      Following(w, After(s, w.at, c), rest)
    decreases v, 2
  {
    ValueAlone(s, v, trail + ([c] + rest));
    var alone := Alone(v, s.name, |s.stack|, SlotsOf(s));
    if alone.ok {
      var after := AfterValue(s, v, alone.at);
      SkipGap(after, trail, [c] + rest);
      EndValue(s, v, alone.at, c);
      ReadByte(after, c, rest);
      assert alone.trace + [] == alone.trace;
      EmptyTrace(RunJson(After(s, alone.at, c), rest));
      EmptyTrace(Prepend(Report(|s.stack|, s.name, if v.Word? then v.word else "",
                                if c == '}' then Last else Normal, alone.at),
                         RunJson(After(s, alone.at, c), rest)));
    }
  }

  lemma FollowingTwice(w1: Walked, w2: Walked, next: JState, rest: string)
    requires w1.ok
    ensures Prepend(w1.trace, Following(w2, next, rest)) == Following(AndThen(w1, w2), next, rest)
  {
    assert w1.trace + (w2.trace + RunJson(next, rest).trace) == (w1.trace + w2.trace) + RunJson(next, rest).trace;
  }

  lemma AndThenNothing(w: Walked)
    requires w.ok
    ensures AndThen(w, Walked(true, [], w.at)) == w
  {
    assert w.trace + [] == w.trace;
  }

  function ItemEnder(items: Items): char
    requires items.Item?
  {
    if items.rest.NoItem? then ']' else ','
  }

  function MoreItems(items: Items, rest: string): string
    requires items.Item?
  {
    if items.rest.NoItem? then rest else PrintItems(items.rest) + rest
  }

  lemma FirstItemPrinted(items: Items, rest: string)
    requires items.Item?
    ensures PrintItems(items) + rest ==
      items.lead + (Print(items.val) + (items.trail + ([ItemEnder(items)] + MoreItems(items, rest))))
  {
    var end := if items.rest.NoItem? then [']'] else [','] + PrintItems(items.rest);
    if items.rest.Item? {
      Assoc([','], PrintItems(items.rest), rest);
    }
    Assoc(items.lead + Print(items.val) + items.trail, end, rest);
    Assoc(items.lead + Print(items.val), items.trail, end + rest);
    Assoc(items.lead, Print(items.val), items.trail + (end + rest));
  }

  lemma FirstItem(s: JState, items: Items, rest: string)
    requires AtValue(s) && InArray(s) && s.name == "" && items.Item? && PrintableItems(items)
    ensures RunJson(s, PrintItems(items) + rest) ==
      var w := Walk(items.val, "", |s.stack|, true, ItemEnder(items), SlotsOf(s));
      Following(w, After(s, w.at, ItemEnder(items)), MoreItems(items, rest))
    decreases items, 3, 0
  {
    var c, more := ItemEnder(items), MoreItems(items, rest);
    FirstItemPrinted(items, rest);
    SkipGap(s, items.lead, Print(items.val) + (items.trail + ([c] + more)));
    ValueRoundTrip(s, items.val, items.trail, c, more);
  }

  lemma {:induction false} ItemsRoundTrip(s: JState, items: Items, rest: string)
    requires AtValue(s) && InArray(s) && s.name == "" && items.Item? && PrintableItems(items)
    ensures RunJson(s, PrintItems(items) + rest) ==
      var w := WalkItems(items, |s.stack|, SlotsOf(s));
      Following(w, After(s, w.at, ']'), rest)
    decreases items, 3, 1
  {
    FirstItem(s, items, rest);
    var w := Walk(items.val, "", |s.stack|, true, ItemEnder(items), SlotsOf(s));
    if w.ok {
      if items.rest.NoItem? {
        AndThenNothing(w);
      } else {
        var next := After(s, w.at, ',');
        assert next == s.(server := w.at.server, player := w.at.player);
        ItemsRoundTrip(next, items.rest, rest);
        var w2 := WalkItems(items.rest, |s.stack|, w.at);
        FollowingTwice(w, w2, After(s, w2.at, ']'), rest);
      }
    }
  }

  /** A member up to its value. */
  lemma MemberKey(s: JState, m: Members, value: string)
    requires AtMember(s) && m.Member? && PrintableMembers(m)
    ensures RunJson(s, m.lead + (QuotedKey(m.key) + (PrintColon(m.beforeColon, m.afterColon) + value))) ==
      if KeyFits(m.key) then RunJson(s.(mode := Value, name := m.key), value) else Run([], Return(1))
  {
    WholeKey(s, m.lead, m.key, PrintColon(m.beforeColon, m.afterColon) + value);
    if KeyFits(m.key) {
      Colon(s.(mode := KeySep, name := m.key), m.beforeColon, m.afterColon, value);
    }
  }

  lemma WholeKey(s: JState, lead: string, key: string, rest: string)
    requires AtMember(s) && AllSpace(lead) && '"' !in key
    ensures RunJson(s, lead + (QuotedKey(key) + rest)) ==
      if KeyFits(key) then RunJson(s.(mode := KeySep, name := key), rest) else Run([], Return(1))
  {
    var text := key + ['"'] + rest;
    assert QuotedKey(key) + rest == ['"'] + text;
    SkipGap(s, lead, ['"'] + text);
    var quoted := s.(inQuote := true);
    assert StepJson(s, '"') == Continue(quoted);
    ReadByte(s, '"', text);
    ReadKey(quoted, key, rest);
    assert quoted.name + key == key;
  }

  lemma Colon(s: JState, before: string, after: string, rest: string)
    requires s.mode == KeySep && !s.inQuote && AllSpace(before) && AllSpace(after)
    ensures RunJson(s, PrintColon(before, after) + rest) == RunJson(s.(mode := Value), rest)
  {
    assert PrintColon(before, after) + rest == before + ([':'] + (after + rest));
    SkipGap(s, before, [':'] + (after + rest));
    ReadByte(s, ':', after + rest);
    SkipGap(s.(mode := Value), after, rest);
  }

  lemma Regroup(a: string, b: string, c: string, d: string, e: string, f: string, g: string)
    ensures (a + b + c + d + e + f) + g == a + (b + (c + (d + (e + (f + g)))))
  {
    Assoc(a + b + c + d + e, f, g);
    Assoc(a + b + c + d, e, f + g);
    Assoc(a + b + c, d, e + (f + g));
    Assoc(a + b, c, d + (e + (f + g)));
    Assoc(a, b, c + (d + (e + (f + g))));
  }

  function EnderOf(m: Members): char
    requires m.Member?
  {
    if m.rest.NoMember? then '}' else ','
  }

  function MoreMembers(m: Members, rest: string): string
    requires m.Member?
  {
    if m.rest.NoMember? then rest else PrintMembers(m.rest) + rest
  }

  lemma FirstMemberPrinted(m: Members, rest: string)
    requires m.Member?
    ensures PrintMembers(m) + rest ==
      m.lead + (QuotedKey(m.key) + (PrintColon(m.beforeColon, m.afterColon) +
        (Print(m.val) + (m.trail + ([EnderOf(m)] + MoreMembers(m, rest))))))
  {
    var end := if m.rest.NoMember? then ['}'] else [','] + PrintMembers(m.rest);
    if m.rest.Member? {
      Assoc([','], PrintMembers(m.rest), rest);
    }
    Regroup(m.lead, QuotedKey(m.key), PrintColon(m.beforeColon, m.afterColon), Print(m.val), m.trail, end, rest);
  }

  lemma FirstMember(s: JState, m: Members, rest: string)
    requires AtMember(s) && m.Member? && PrintableMembers(m)
    ensures RunJson(s, PrintMembers(m) + rest) ==
      var w := Walk(m.val, m.key, |s.stack|, false, EnderOf(m), SlotsOf(s));
      if KeyFits(m.key) then Following(w, After(s, w.at, EnderOf(m)), MoreMembers(m, rest)) else Run([], Return(1))
    decreases m, 3, 0
  {
    var c, more := EnderOf(m), MoreMembers(m, rest);
    FirstMemberPrinted(m, rest);
    MemberKey(s, m, Print(m.val) + (m.trail + ([c] + more)));
    if KeyFits(m.key) {
      var named := s.(mode := Value, name := m.key);
      ValueRoundTrip(named, m.val, m.trail, c, more);
      var w := Walk(m.val, m.key, |s.stack|, false, c, SlotsOf(s));
      if w.ok {
        assert After(named, w.at, c) == After(s, w.at, c);
      }
    }
  }

  lemma {:induction false} MembersRoundTrip(s: JState, m: Members, rest: string)
    requires AtMember(s) && m.Member? && PrintableMembers(m)
    ensures RunJson(s, PrintMembers(m) + rest) ==
      var w := WalkMembers(m, |s.stack|, SlotsOf(s));
      Following(w, After(s, w.at, '}'), rest)
    decreases m, 3, 1
  {
    FirstMember(s, m, rest);
    var w := Walk(m.val, m.key, |s.stack|, false, EnderOf(m), SlotsOf(s));
    if KeyFits(m.key) && w.ok {
      if m.rest.NoMember? {
        AndThenNothing(w);
      } else {
        var next := After(s, w.at, ',');
        assert next == s.(server := w.at.server, player := w.at.player);
        MembersRoundTrip(next, m.rest, rest);
        var w2 := WalkMembers(m.rest, |s.stack|, w.at);
        FollowingTwice(w, w2, After(s, w2.at, '}'), rest);
      }
    }
  }

  // ---------------------------------------------------------------- documents

  /** For every document, with any white space between its tokens, parsing its printed form makes exactly the callbacks
      of the recursive reading, and fails exactly when the reading does. */
  lemma DocumentRoundTrip(root: Node, lead: string, trail: string)
    requires root.Obj? && Printable(root) && AllSpace(lead) && AllSpace(trail)
    ensures var r := RunJson(INITIAL_JSON, lead + Print(root) + trail);
      && r.trace == WalkDocument(root).trace && ExitCode(r.end) == (if WalkDocument(root).ok then 0 else 1)
      && (WalkDocument(root).ok ==> r.end.Go? && r.end.state.mode == RootEnd)
  {
    var s := INITIAL_JSON.(mode := KeyName, stack := [false]);
    var body := Inside(root) + trail;
    Assoc(lead, Print(root), trail);
    Opened(root, trail);
    SkipGap(INITIAL_JSON, lead, ['{'] + body);
    assert StepJson(INITIAL_JSON, '{') == Continue(s) by { assert INITIAL_JSON.stack + [false] == [false]; }
    ReadByte(INITIAL_JSON, '{', body);
    var w := WalkDocument(root);
    ObjectInside(s, root, trail);
    if w.ok {
      Ending(After(s, w.at, '}'), w, trail);
    }
  }

  lemma {:induction false} GoesOnFrom(s: JState, a: string, b: string)
    requires RunJson(s, a + b).end.Go?
    ensures RunJson(s, a).end.Go? && RunJson(s, a).trace <= RunJson(s, a + b).trace
    decreases |a|
  {
    if a != "" {
      assert (a + b)[1..] == a[1..] + b;
      GoesOnFrom(StepJson(s, a[0]).next.state, a[1..], b);
    }
  }

  /** A truncated document is not noticed: every prefix of one that is accepted returns 0, with the callbacks that it
      has made so far. */
  lemma TruncatedReturnsZero(root: Node, lead: string, trail: string, n: nat)
    requires root.Obj? && Printable(root) && AllSpace(lead) && AllSpace(trail) && WalkDocument(root).ok
    requires n <= |lead + Print(root) + trail|
    ensures var r := RunJson(INITIAL_JSON, (lead + Print(root) + trail)[..n]);
      ExitCode(r.end) == 0 && r.trace <= WalkDocument(root).trace
  {
    var text := lead + Print(root) + trail;
    DocumentRoundTrip(root, lead, trail);
    assert text[..n] + text[n..] == text;
    GoesOnFrom(INITIAL_JSON, text[..n], text[n..]);
  }

  /** What comes after the root: the parser returns 0 only at a second closing brace, and rejects anything else but
      white space. A stream that ends instead returns 0, too. */
  lemma AfterTheRoot(root: Node, lead: string, trail: string, c: char, rest: string)
    requires root.Obj? && Printable(root) && AllSpace(lead) && AllSpace(trail) && WalkDocument(root).ok && !IsSpace(c)
    ensures RunJson(INITIAL_JSON, lead + Print(root) + trail + ([c] + rest)) ==
      Run(WalkDocument(root).trace, Return(if c == '}' then 0 else 1))
  {
    var s := INITIAL_JSON.(mode := KeyName, stack := [false]);
    var after := trail + ([c] + rest);
    Assoc(lead + Print(root), trail, [c] + rest);
    Assoc(lead, Print(root), after);
    Opened(root, after);
    SkipGap(INITIAL_JSON, lead, ['{'] + (Inside(root) + after));
    assert StepJson(INITIAL_JSON, '{') == Continue(s) by { assert INITIAL_JSON.stack + [false] == [false]; }
    ReadByte(INITIAL_JSON, '{', Inside(root) + after);
    ObjectInside(s, root, after);
    var w := WalkDocument(root);
    var closed := After(s, w.at, '}');
    SkipGap(closed, trail, [c] + rest);
    ReadByte(closed, c, rest);
    assert w.trace + [] == w.trace;
  }

  /** White space after the root. */
  lemma Ending(closed: JState, w: Walked, trail: string)
    requires w.ok && closed.mode == RootEnd && !closed.inQuote && AllSpace(trail)
    ensures var r := Following(w, closed, trail); r.trace == w.trace && r.end == Go(closed)
  {
    assert trail + "" == trail;
    SkipGap(closed, trail, "");
    assert w.trace + [] == w.trace;
  }
}
