/** Documents in which no object is a member of an object, as lobbies are: whatever white space they are printed with,
    no brace opens a line except after a comma or an opening bracket. */
module LineStarts {
  import opened CStrings
  import opened ParserSpec
  import opened ParserRuns
  import opened Document
  import opened RoundTrip
  import opened Acceptance
  import opened HttpFraming
  import opened SwallowedBody
  import opened DirectReading
  import opened WholeScan

  // ---------------------------------------------------------------- reading a text with an eye on its lines

  /** Whether the last character but white space is a comma or an opening bracket, whether the last one is a carriage
      return, and whether a line has ended since the last but white space. */
  datatype Place = Place(separated: bool, returned: bool, ended: bool)

  const PLAIN := Place(false, false, false)

  function NextPlace(p: Place, c: char): Place {
    if IsSpace(c) then Place(p.separated, c == '\r', p.ended || (p.returned && c == '\n'))
    else Place(c == ',' || c == '[', false, false)
  }

  function PlaceAfter(p: Place, t: string): Place
    decreases |t|
  {
    if t == "" then p else PlaceAfter(NextPlace(p, t[0]), t[1..])
  }

  /** No brace comes where it must not. */
  predicate Fine(p: Place, t: string)
    decreases |t|
  {
    t != "" ==> (t[0] == '{' && p.ended ==> p.separated) && Fine(NextPlace(p, t[0]), t[1..])
  }

  lemma {:induction false} FineConcat(p: Place, a: string, b: string)
    ensures PlaceAfter(p, a + b) == PlaceAfter(PlaceAfter(p, a), b)
    ensures Fine(p, a + b) <==> Fine(p, a) && Fine(PlaceAfter(p, a), b)
    decreases |a|
  {
    if a == "" {
      assert a + b == b;
    } else {
      assert (a + b)[1..] == a[1..] + b;
      FineConcat(NextPlace(p, a[0]), a[1..], b);
    }
  }

  lemma SeparatorBefore(init: string, c: char)
    ensures EndsWithSeparator(init + [c]) <==> if IsSpace(c) then EndsWithSeparator(init) else c == ',' || c == '['
  {
    var t := init + [c];
    assert t[..|t| - 1] == init;
    assert IsSpace(c) ==> BeforeSpaces(t) == BeforeSpaces(init);
  }

  lemma PlaceOfMore(init: string, c: char)
    ensures PlaceAfter(PLAIN, init + [c]) == NextPlace(PlaceAfter(PLAIN, init), c)
  {
    FineConcat(PLAIN, init, [c]);
    assert [c][1..] == "";
  }

  /** What a place says about the text before it. */
  lemma {:induction false} PlaceTells(t: string)
    ensures var p := PlaceAfter(PLAIN, t);
      && (p.separated <==> EndsWithSeparator(t))
      && (p.returned <==> t != "" && t[|t| - 1] == '\r')
      && (EndsLineThere(t) ==> p.ended)
    decreases |t|
  {
    if t != "" {
      var init, c := t[..|t| - 1], t[|t| - 1];
      assert t == init + [c];
      PlaceTells(init);
      PlaceOfMore(init, c);
      SeparatorBefore(init, c);
    }
  }

  lemma {:induction false} GapIsFine(p: Place, gap: string)
    requires AllSpace(gap)
    ensures Fine(p, gap) && PlaceAfter(p, gap).separated == p.separated
    ensures p.ended ==> PlaceAfter(p, gap).ended
    decreases |gap|
  {
    if gap != "" {
      GapIsFine(NextPlace(p, gap[0]), gap[1..]);
    }
  }

  lemma FineMeansBracesFollow(text: string)
    requires Fine(PLAIN, text)
    ensures BracesFollow(text)
  {
    forall k | 0 <= k <= |text| && EndsLineThere(text[..k]) && StartsWithBrace(text[k..])
      ensures EndsWithSeparator(text[..k])
    {
      var a, b := text[..k], text[k..];
      var rest := SkipSpaces(b);
      SpacesSkipped(b);
      var gap := b[..|b| - |rest|];
      assert text == a + b && b == gap + rest;
      FineConcat(PLAIN, a, b);
      FineConcat(PlaceAfter(PLAIN, a), gap, rest);
      GapIsFine(PlaceAfter(PLAIN, a), gap);
      PlaceTells(a);
    }
  }

  // ---------------------------------------------------------------- tokens

  /** Text without a line end, after something that is not white space. */
  lemma {:induction false} OneLineIsFine(p: Place, t: string)
    requires '\n' !in t && !p.ended
    ensures Fine(p, t) && !PlaceAfter(p, t).ended
    decreases |t|
  {
    if t != "" {
      OneLineIsFine(NextPlace(p, t[0]), t[1..]);
    }
  }

  lemma QuotedIsFine(p: Place, t: string)
    requires '\n' !in t
    ensures Fine(p, ['"'] + t + ['"']) && PlaceAfter(p, ['"'] + t + ['"']) == PLAIN
  {
    OneCharIsFine(p, '"');
    OneLineIsFine(PLAIN, t);
    OneCharIsFine(PlaceAfter(PLAIN, t), '"');
    FineConcat(p, ['"'], t);
    FineConcat(p, ['"'] + t, ['"']);
  }

  lemma {:induction false} EscapedHasNoLines(t: string)
    ensures '\n' !in Escape(t)
  {
    if t != "" {
      EscapedHasNoLines(t[1..]);
    }
  }

  lemma {:induction false} WordIsFine(p: Place, w: string)
    requires AllWordChars(w) && w != ""
    ensures Fine(p, w) && PlaceAfter(p, w) == PLAIN
    decreases |w|
  {
    if |w| > 1 {
      WordIsFine(NextPlace(p, w[0]), w[1..]);
    } else {
      assert w[1..] == "";
    }
  }

  lemma OneCharIsFine(p: Place, c: char)
    requires !IsSpace(c) && (c == '{' && p.ended ==> p.separated)
    ensures Fine(p, [c]) && PlaceAfter(p, [c]) == Place(c == ',' || c == '[', false, false)
  {
    assert [c][1..] == "";
  }

  // ---------------------------------------------------------------- documents

  /** No object is a member of an object. */
  predicate ObjectsInArrays(v: Node) {
    match v
    case Arr(_, items) => ItemsInArrays(items)
    case Obj(_, members) => MembersInArrays(members)
    case _ => true
  }

  predicate ItemsInArrays(items: Items) {
    items.Item? ==> ObjectsInArrays(items.val) && ItemsInArrays(items.rest)
  }

  predicate MembersInArrays(m: Members) {
    m.Member? ==> !m.val.Obj? && ObjectsInArrays(m.val) && MembersInArrays(m.rest)
  }

  /** The text can stand at `p`, and nothing of it is pending after it. */
  predicate Stands(p: Place, t: string) {
    Fine(p, t) && PlaceAfter(p, t) == PLAIN
  }

  lemma BracketsStand(p: Place, open_: char, t: string)
    requires (open_ == '[' || (open_ == '{' && (p.ended ==> p.separated)))
    requires Stands(Place(open_ == '[', false, false), t)
    ensures Stands(p, [open_] + t)
  {
    OneCharIsFine(p, open_);
    FineConcat(p, [open_], t);
  }

  lemma GapThenStands(p: Place, gap: string, c: char)
    requires AllSpace(gap) && (c == ']' || c == '}')
    ensures Stands(p, gap + [c])
  {
    GapIsFine(p, gap);
    OneCharIsFine(PlaceAfter(p, gap), c);
    FineConcat(p, gap, [c]);
  }

  lemma {:induction false} NodeStands(p: Place, v: Node)
    requires Printable(v) && TextsFit(v) && ObjectsInArrays(v) && (v.Obj? && p.ended ==> p.separated)
    ensures Stands(p, Print(v))
    decreases v
  {
    match v
    case Text(t) =>
      EscapedHasNoLines(t);
      QuotedIsFine(p, Escape(t));
    case Word(w) => WordIsFine(p, w);
    case Arr(gap, items) =>
      if items.NoItem? {
        GapThenStands(Place(true, false, false), gap, ']');
      } else {
        ItemsStand(Place(true, false, false), items);
      }
      BracketsStand(p, '[', Inside(v));
    case Obj(gap, members) =>
      if members.NoMember? {
        GapThenStands(PLAIN, gap, '}');
      } else {
        MembersStand(PLAIN, members);
      }
      BracketsStand(p, '{', Inside(v));
  }

  lemma ItemsStand(p: Place, items: Items)
    requires items.Item? && PrintableItems(items) && ItemsFit(items) && ItemsInArrays(items) && p.separated
    ensures Stands(p, PrintItems(items))
    decreases items
  {
    var value := Print(items.val);
    GapIsFine(p, items.lead);
    NodeStands(PlaceAfter(p, items.lead), items.val);
    FineConcat(p, items.lead, value);
    FineConcat(p, items.lead + value, items.trail);
    GapIsFine(PLAIN, items.trail);
    var q := PlaceAfter(PLAIN, items.trail);
    if items.rest.NoItem? {
      OneCharIsFine(q, ']');
      FineConcat(p, items.lead + value + items.trail, [']']);
    } else {
      OneCharIsFine(q, ',');
      ItemsStand(Place(true, false, false), items.rest);
      FineConcat(q, [','], PrintItems(items.rest));
      FineConcat(p, items.lead + value + items.trail, [','] + PrintItems(items.rest));
    }
  }

  /** A member up to its value. */
  lemma KeyStands(p: Place, m: Members)
    requires m.Member? && PrintableMembers(m) && KeyFits(m.key)
    ensures Fine(p, m.lead + QuotedKey(m.key) + PrintColon(m.beforeColon, m.afterColon))
  {
    var colon := [':'] + m.afterColon;
    GapIsFine(p, m.lead);
    QuotedIsFine(PlaceAfter(p, m.lead), m.key);
    Assoc(['"'], m.key, ['"']);
    FineConcat(p, m.lead, QuotedKey(m.key));
    GapIsFine(PLAIN, m.beforeColon);
    OneCharIsFine(PlaceAfter(PLAIN, m.beforeColon), ':');
    GapIsFine(PLAIN, m.afterColon);
    FineConcat(PlaceAfter(PLAIN, m.beforeColon), [':'], m.afterColon);
    FineConcat(PLAIN, m.beforeColon, colon);
    FineConcat(p, m.lead + QuotedKey(m.key), PrintColon(m.beforeColon, m.afterColon));
  }

  lemma MembersStand(p: Place, m: Members)
    requires m.Member? && PrintableMembers(m) && MembersFit(m) && MembersInArrays(m)
    ensures Stands(p, PrintMembers(m))
    decreases m
  {
    var head, value := m.lead + QuotedKey(m.key) + PrintColon(m.beforeColon, m.afterColon), Print(m.val);
    KeyStands(p, m);
    NodeStands(PlaceAfter(p, head), m.val);
    FineConcat(p, head, value);
    FineConcat(p, head + value, m.trail);
    GapIsFine(PLAIN, m.trail);
    var q := PlaceAfter(PLAIN, m.trail);
    if m.rest.NoMember? {
      OneCharIsFine(q, '}');
      FineConcat(p, head + value + m.trail, ['}']);
    } else {
      OneCharIsFine(q, ',');
      MembersStand(Place(true, false, false), m.rest);
      FineConcat(q, [','], PrintMembers(m.rest));
      FineConcat(p, head + value + m.trail, [','] + PrintMembers(m.rest));
    }
  }

  /** For an accepted document that reports something and has no object as a member of an object, with any white space,
      the condition on empty values is exact: a response is read as the document if and only if no empty value is left
      at the end. */
  lemma FlatResponseIsReadIff(status: string, lines: seq<Header>, root: Node, lead: string, i: nat,
                              chunks: seq<string>)
    requires root.Obj? && Printable(root) && AllSpace(lead) && GoodStatus(status)
    requires Accepted(root) && ObjectsInArrays(root) && WalkDocument(root).trace != []
    requires Readable(lines) && Announces(lines, i, lead + Print(root))
    requires forall j :: 0 <= j < |chunks| ==> chunks[j] != ""
    requires Joined(chunks) == PrintResponse(status, lines, lead + Print(root))
    ensures Reads(Parse(_ => false, true, ReadsOf(chunks)), root) <==> EndsWithAValue(lines)
  {
    WalkOfDocument(root);
    NodeStands(PLAIN, root);
    FineMeansBracesFollow(Print(root));
    ResponseIsReadIff(status, lines, root, lead, i, chunks);
  }

  // ---------------------------------------------------------------- lobbies

  lemma {:induction false} ScalarsInArrays(m: Members)
    requires ScalarMembers(m)
    ensures MembersInArrays(m)
  {
    if m.Member? {
      ScalarsInArrays(m.rest);
    }
  }

  lemma {:induction false} PlayersInArrays(items: Items)
    requires PlayerItems(items)
    ensures ItemsInArrays(items)
  {
    if items.Item? {
      ScalarsInArrays(items.val.members);
      PlayersInArrays(items.rest);
    }
  }

  lemma {:induction false} ServerInArrays(m: Members)
    requires ServerMembers(m)
    ensures MembersInArrays(m)
  {
    if m.Member? {
      if m.val.Arr? {
        PlayersInArrays(m.val.items);
      }
      ServerInArrays(m.rest);
    }
  }

  lemma {:induction false} ServersInArrays(items: Items)
    requires ServerItems(items)
    ensures ItemsInArrays(items)
  {
    if items.Item? {
      ServerInArrays(items.val.members);
      ServersInArrays(items.rest);
    }
  }

  lemma LobbyIsFlat(root: Node)
    requires Lobby(root)
    ensures root.Obj? && ObjectsInArrays(root) && (LobbyFits(root) <==> Accepted(root))
  {
    LobbyAccepted(root);
    WalkOfDocument(root);
    ServersInArrays(root.members.val.items);
    assert MembersInArrays(root.members.rest) && ObjectsInArrays(root.members.val);
    assert MembersInArrays(root.members);
  }

  /** In particular for every lobby whose texts fit. */
  lemma LobbyResponseIsReadIff(status: string, lines: seq<Header>, root: Node, lead: string, i: nat,
                               chunks: seq<string>)
    requires Lobby(root) && LobbyFits(root) && Printable(root) && AllSpace(lead) && GoodStatus(status)
    requires WalkDocument(root).trace != []
    requires Readable(lines) && Announces(lines, i, lead + Print(root))
    requires forall j :: 0 <= j < |chunks| ==> chunks[j] != ""
    requires Joined(chunks) == PrintResponse(status, lines, lead + Print(root))
    ensures Reads(Parse(_ => false, true, ReadsOf(chunks)), root) <==> EndsWithAValue(lines)
  {
    LobbyIsFlat(root);
    FlatResponseIsReadIff(status, lines, root, lead, i, chunks);
  }
}
