/** JSON documents, how they are printed, and a recursive reading of them that knows nothing of bytes. */
module Document {
  import opened CStrings
  import opened ParserSpec

  /** A document with the white space between its tokens. Text is kept unescaped. `gap` is the white space of an empty
      array or object; `trail` comes before the comma or bracket that ends an entry. */
  datatype Node =
    | Text(text: string)
    | Word(word: string)
    | Arr(gap: string, items: Items)
    | Obj(gap: string, members: Members)

  datatype Items = NoItem | Item(lead: string, val: Node, trail: string, rest: Items)

  datatype Members =
    | NoMember
    | Member(lead: string, key: string, beforeColon: string, afterColon: string, val: Node, trail: string,
             rest: Members)

  // ---------------------------------------------------------------- printing

  predicate AllWordChars(s: string) {
    forall i :: 0 <= i < |s| ==> IsWordChar(s[i])
  }

  /** What can be printed at all: gaps are white space, bare words are nonempty words, and keys, which have no escapes,
      hold no quote. */
  predicate Printable(v: Node) {
    match v
    case Text(_) => true
    case Word(w) => w != "" && AllWordChars(w)
    case Arr(gap, items) => AllSpace(gap) && PrintableItems(items)
    case Obj(gap, members) => AllSpace(gap) && PrintableMembers(members)
  }

  predicate PrintableItems(items: Items) {
    items.Item? ==>
      AllSpace(items.lead) && Printable(items.val) && AllSpace(items.trail) && PrintableItems(items.rest)
  }

  predicate PrintableMembers(m: Members) {
    m.Member? ==>
      && AllSpace(m.lead) && '"' !in m.key && AllSpace(m.beforeColon) && AllSpace(m.afterColon)
      && Printable(m.val) && AllSpace(m.trail) && PrintableMembers(m.rest)
  }

  function EscapeChar(c: char): string {
    if c == '"' then "\\\""
    else if c == '\\' then "\\\\"
    else if c == '\n' then "\\n"
    else if c == '\r' then "\\r"
    else if c == '\t' then "\\t"
    else [c]
  }

  function Escape(t: string): string {
    if t == "" then "" else EscapeChar(t[0]) + Escape(t[1..])
  }

  function Print(v: Node): string {
    match v
    case Text(t) => ['"'] + Escape(t) + ['"']
    case Word(w) => w
    case Arr(gap, items) => ['['] + (if items.NoItem? then gap + [']'] else PrintItems(items))
    case Obj(gap, members) => ['{'] + (if members.NoMember? then gap + ['}'] else PrintMembers(members))
  }

  /** The entries of an array and its closing bracket. */
  function PrintItems(items: Items): string
    requires items.Item?
  {
    items.lead + Print(items.val) + items.trail
    + (if items.rest.NoItem? then [']'] else [','] + PrintItems(items.rest))
  }

  function PrintMembers(m: Members): string
    requires m.Member?
  {
    m.lead + QuotedKey(m.key) + PrintColon(m.beforeColon, m.afterColon) + Print(m.val) + m.trail
    + (if m.rest.NoMember? then ['}'] else [','] + PrintMembers(m.rest))
  }

  function QuotedKey(key: string): string { ['"'] + (key + ['"']) }

  function PrintColon(before: string, after: string): string { before + ([':'] + after) }

  // ---------------------------------------------------------------- reading

  datatype Slots = Slots(server: nat, player: nat)

  /** Whether the reading can go on, what it has reported, and the slots it has reached. */
  datatype Walked = Walked(ok: bool, trace: seq<Record>, at: Slots)

  /** Scalars are reported at two depths: 3, a server's, and 5, a player's. */
  function Report(depth: nat, key: string, value: string, status: Status, at: Slots): seq<Record> {
    if depth == 3 || depth == 5 then
      [Record(status, depth == 5, Copied(key, KEY_LEN), Copied(value, VALUE_LEN), at.server, at.player)]
    else []
  }

  function ClosedObject(depth: nat, at: Slots): Slots {
    if depth == 3 then Slots(at.server + 1, 0) else if depth == 5 then Slots(at.server, at.player + 1) else at
  }

  function AndThen(w: Walked, next: Walked): Walked {
    Walked(next.ok, w.trace + next.trace, next.at)
  }

  predicate KeyFits(key: string) {
    |key| < GENERIC_BUFLEN && '\n' !in key && '\r' !in key
  }

  /** Reads a value found under `key` inside `depth` brackets, of which the innermost is an array or not, and which is
      followed by `ender`. The parser gives up on overlong text, on a sixth bracket, and on an object that is a member
      of an object without being the last one. */
  function Walk(v: Node, key: string, depth: nat, inArray: bool, ender: char, at: Slots): Walked {
    match v
    case Text(t) =>
      if |t| < GENERIC_BUFLEN then Walked(true, Report(depth, key, t, Normal, at), at) else Walked(false, [], at)
    case Word(w) =>
      if |w| < GENERIC_BUFLEN then
        Walked(true, Report(depth, key, w, if ender == '}' then Last else Normal, at), at)
      else Walked(false, [], at)
    case Arr(_, items) =>
      if depth + 1 >= MAX_DEPTH then Walked(false, [], at) else WalkItems(items, depth + 1, at)
    case Obj(_, members) =>
      if depth + 1 >= MAX_DEPTH then Walked(false, [], at)
      else
        var w := WalkMembers(members, depth + 1, at);
        if w.ok then Walked(inArray || ender != ',', w.trace, ClosedObject(depth + 1, w.at)) else w
  }

  function WalkItems(items: Items, depth: nat, at: Slots): Walked {
    match items
    case NoItem => Walked(true, [], at)
    case Item(_, val, _, rest) =>
      var w := Walk(val, "", depth, true, if rest.NoItem? then ']' else ',', at);
      if w.ok then AndThen(w, WalkItems(rest, depth, w.at)) else w
  }

  function WalkMembers(m: Members, depth: nat, at: Slots): Walked {
    match m
    case NoMember => Walked(true, [], at)
    case Member(_, key, _, _, val, _, rest) =>
      if !KeyFits(key) then Walked(false, [], at)
      else
        var w := Walk(val, key, depth, false, if rest.NoMember? then '}' else ',', at);
        if w.ok then AndThen(w, WalkMembers(rest, depth, w.at)) else w
  }

  /** The reading of a whole document: the members of its root object. */
  function WalkDocument(root: Node): Walked
    requires root.Obj?
  {
    WalkMembers(root.members, 1, Slots(0, 0))
  }
}
