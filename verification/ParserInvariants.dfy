/** What holds in every state the parser can reach, whatever bytes it reads. */
module ParserInvariants {
  import opened ParserSpec

  /** The buffers never fill up, the bracket stack stays within its array, and each flag and each pending value
      belongs to the state that reads it. */
  predicate GoodJson(s: JState) {
    && |s.name| < GENERIC_BUFLEN && |s.value| < GENERIC_BUFLEN
    && |s.stack| < MAX_DEPTH
    && (s.stack != [] ==> !s.stack[0])
    && (s.stack == [] <==> s.mode == RootStart || s.mode == RootEnd)
    && (s.mode == KeyName || s.mode == KeySep ==> !s.stack[|s.stack| - 1])
    && (s.value != "" ==> s.mode == ReadValue)
    && (s.mode == ReadValue && !s.inQuote ==> s.value != "")
    && (s.inQuote ==> s.mode == KeyName || s.mode == ReadValue)
    && (s.inEscape ==> s.inQuote && s.mode == ReadValue)
  }

  predicate Good(s: State) {
    && s.contentLength < DWORD && s.jsonLength < DWORD
    && if s.mode == Json then GoodJson(s.json)
       else
         && s.json == INITIAL_JSON.(name := s.json.name, value := s.json.value)
         && |s.json.name| < GENERIC_BUFLEN && |s.json.value| < GENERIC_BUFLEN
         && (s.json.value != "" ==> s.mode == HttpValue)
  }

  predicate GoodAfter(r: Reaction<JState>) {
    r.next.Go? ==> GoodJson(r.next.state)
  }

  lemma NextKeepsGood(s: JState, c: char)
    requires GoodJson(s) && s.mode == Next
    ensures GoodAfter(OnNext(s, c))
  {
  }

  lemma KeyKeepsGood(s: JState, c: char)
    requires GoodJson(s) && s.mode == KeyName
    ensures GoodAfter(OnKeyName(s, c))
  {
    if !s.inQuote {
      NextKeepsGood(s.(mode := Next), c);
    }
  }

  lemma ValueKeepsGood(s: JState, c: char)
    requires GoodJson(s) && s.mode == Value
    ensures GoodAfter(OnValue(s, c))
  {
    NextKeepsGood(s.(mode := Next), c);
  }

  lemma WordKeepsGood(s: JState, c: char)
    requires GoodJson(s) && s.mode == ReadValue && !s.inQuote
    ensures GoodAfter(OnReadWord(s, c))
  {
    NextKeepsGood(Cleared(s), c);
  }

  lemma JsonKeepsGood(s: JState, c: char)
    requires GoodJson(s)
    ensures GoodAfter(StepJson(s, c))
  {
    match s.mode
    case KeyName => KeyKeepsGood(s, c);
    case Value => ValueKeepsGood(s, c);
    case ReadValue => if !s.inQuote { WordKeepsGood(s, c); }
    case Next => NextKeepsGood(s, c);
    case _ =>
  }

  /** Every byte keeps the invariant, in a file and in an HTTP response. */
  lemma StepKeepsGood(s: State, c: char)
    requires Good(s)
    ensures Step(s, c).next.Go? ==> Good(Step(s, c).next.state)
  {
    if s.mode == Json {
      JsonKeepsGood(s.json, c);
    }
  }

  /** Every reachable state is good. */
  lemma {:induction false} ReachableIsGood(s: State, bytes: string)
    requires Good(s)
    ensures RunAll(s, bytes).end.Go? ==> Good(RunAll(s, bytes).end.state)
    decreases |bytes|
  {
    if bytes != "" {
      StepKeepsGood(s, bytes[0]);
      if Step(s, bytes[0]).next.Go? {
        ReachableIsGood(Step(s, bytes[0]).next.state, bytes[1..]);
      }
    }
  }
}
