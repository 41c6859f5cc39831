/** Which documents the parser accepts, said of the document alone. */
module Acceptance {
  import opened CStrings
  import opened ParserSpec
  import opened Document
  import opened RoundTrip

  // ---------------------------------------------------------------- what is asked of a document

  /** Every text, word and key is shorter than its buffer, and no key holds a line break. */
  predicate TextsFit(v: Node) {
    match v
    case Text(t) => |t| < GENERIC_BUFLEN
    case Word(w) => |w| < GENERIC_BUFLEN
    case Arr(_, items) => ItemsFit(items)
    case Obj(_, members) => MembersFit(members)
  }

  predicate ItemsFit(items: Items) {
    items.Item? ==> TextsFit(items.val) && ItemsFit(items.rest)
  }

  predicate MembersFit(m: Members) {
    m.Member? ==> KeyFits(m.key) && TextsFit(m.val) && MembersFit(m.rest)
  }

  function Max(a: nat, b: nat): nat {
    if a < b then b else a
  }

  /** How many brackets are open in the deepest place. */
  function Depth(v: Node): nat {
    match v
    case Arr(_, items) => 1 + DepthOfItems(items)
    case Obj(_, members) => 1 + DepthOfMembers(members)
    case _ => 0
  }

  function DepthOfItems(items: Items): nat {
    match items
    case NoItem => 0
    case Item(_, val, _, rest) => Max(Depth(val), DepthOfItems(rest))
  }

  function DepthOfMembers(m: Members): nat {
    match m
    case NoMember => 0
    case Member(_, _, _, _, val, _, rest) => Max(Depth(val), DepthOfMembers(rest))
  }

  /** An object that is a member of an object is its last member. */
  predicate ObjectsComeLast(v: Node) {
    match v
    case Arr(_, items) => ItemsComeLast(items)
    case Obj(_, members) => MembersComeLast(members)
    case _ => true
  }

  predicate ItemsComeLast(items: Items) {
    items.Item? ==> ObjectsComeLast(items.val) && ItemsComeLast(items.rest)
  }

  predicate MembersComeLast(m: Members) {
    m.Member? ==>
      (m.val.Obj? ==> m.rest.NoMember?) && ObjectsComeLast(m.val) && MembersComeLast(m.rest)
  }

  /** At most five brackets are open at any place. */
  predicate Accepted(v: Node) {
    TextsFit(v) && Depth(v) < MAX_DEPTH && ObjectsComeLast(v)
  }

  // ---------------------------------------------------------------- the reading accepts exactly these

  lemma {:induction false} WalkAccepts(v: Node, key: string, depth: nat, inArray: bool, ender: char, at: Slots)
    requires depth < MAX_DEPTH
    ensures Walk(v, key, depth, inArray, ender, at).ok <==>
      TextsFit(v) && depth + Depth(v) < MAX_DEPTH && ObjectsComeLast(v) && (v.Obj? ==> inArray || ender != ',')
    decreases v
  {
    if depth + 1 < MAX_DEPTH {
      match v
      case Arr(_, items) => ItemsAccept(items, depth + 1, at);
      case Obj(_, members) => MembersAccept(members, depth + 1, at);
      case _ =>
    }
  }

  lemma {:induction false} ItemsAccept(items: Items, depth: nat, at: Slots)
    requires depth < MAX_DEPTH
    ensures WalkItems(items, depth, at).ok <==>
      ItemsFit(items) && depth + DepthOfItems(items) < MAX_DEPTH && ItemsComeLast(items)
    decreases items
  {
    if items.Item? {
      var ender := if items.rest.NoItem? then ']' else ',';
      WalkAccepts(items.val, "", depth, true, ender, at);
      ItemsAccept(items.rest, depth, Walk(items.val, "", depth, true, ender, at).at);
    }
  }

  lemma {:induction false} MembersAccept(m: Members, depth: nat, at: Slots)
    requires depth < MAX_DEPTH
    ensures WalkMembers(m, depth, at).ok <==>
      MembersFit(m) && depth + DepthOfMembers(m) < MAX_DEPTH && MembersComeLast(m)
    decreases m
  {
    if m.Member? {
      var ender := if m.rest.NoMember? then '}' else ',';
      WalkAccepts(m.val, m.key, depth, false, ender, at);
      MembersAccept(m.rest, depth, Walk(m.val, m.key, depth, false, ender, at).at);
    }
  }

  lemma WalkOfDocument(root: Node)
    requires root.Obj?
    ensures WalkDocument(root).ok <==> Accepted(root)
  {
    MembersAccept(root.members, 1, Slots(0, 0));
  }

  /** A printed document, with any white space between its tokens, returns 0 if and only if its texts and keys fit, it
      opens no sixth bracket, and every object that is a member of an object is its last member. Otherwise it returns
      1. */
  lemma DocumentIsAcceptedIff(root: Node, lead: string, trail: string)
    requires root.Obj? && Printable(root) && AllSpace(lead) && AllSpace(trail)
    ensures ExitCode(RunJson(INITIAL_JSON, lead + Print(root) + trail).end) == if Accepted(root) then 0 else 1
  {
    DocumentRoundTrip(root, lead, trail);
    WalkOfDocument(root);
  }

  // ---------------------------------------------------------------- an object before another member

  const WORD_MEMBER: Members := Member("", "b", "", "", Word("1"), "", NoMember)

  /** An empty object, and then a number. */
  const OBJECT_FIRST: Node := Obj("", Member("", "a", "", "", Obj("", NoMember), "", WORD_MEMBER))

  lemma WordMemberPrinted()
    ensures PrintMembers(WORD_MEMBER) == "\"b\":1}"
  {
  }

  lemma ObjectFirstPrinted()
    ensures Print(OBJECT_FIRST) == "{\"a\":{},\"b\":1}"
  {
    WordMemberPrinted();
    assert Print(OBJECT_FIRST.members.val) == "{}";
    assert PrintMembers(OBJECT_FIRST.members) == "\"a\":{}," + PrintMembers(WORD_MEMBER);
  }

  lemma ObjectFirstIsNotAccepted()
    ensures Printable(OBJECT_FIRST) && !Accepted(OBJECT_FIRST)
  {
    assert !MembersComeLast(OBJECT_FIRST.members);
  }

  /** Well-formed JSON that the parser rejects. */
  lemma ObjectBeforeAMember()
    ensures Print(OBJECT_FIRST) == "{\"a\":{},\"b\":1}"
    ensures ExitCode(RunJson(INITIAL_JSON, Print(OBJECT_FIRST)).end) == 1
  {
    ObjectFirstPrinted();
    ObjectFirstIsNotAccepted();
    DocumentIsAcceptedIff(OBJECT_FIRST, "", "");
    assert "" + Print(OBJECT_FIRST) + "" == Print(OBJECT_FIRST);
  }
}
