/** Nicknames (bzccscanner.c): the linked table as a cache of what the registry stores. */
module NickCache {
  import opened Common
  import opened Words
  import opened Crc32
  import opened HashTable

  /** A string without its terminator. */
  predicate IsText(s: WString) {
    0 !in s
  }

  predicate IsNick(s: WString) {
    IsText(s) && |s| < PLAYER_NAME_LEN
  }

  function Key(id: WString): Dword { CrcWide(id) as nat }

  /** `isalnum` in the C locale. */
  predicate IsAlnum(c: Tchar) {
    0x30 <= c <= 0x39 || 0x41 <= c <= 0x5A || 0x61 <= c <= 0x7A
  }

  predicate ValidId(id: WString) {
    |id| <= USER_ID_LEN && forall c <- id :: IsAlnum(c)
  }

  /** The cache, and the registry as a map whose operations succeed. */
  datatype Nicks = Nicks(cache: map<Dword, WString>, store: map<WString, WString>)

  /** The two operations on nicknames: a player of the list is shown, or the rename dialog is submitted for one.
      `local` is the nickname the player holds. `kept` says whether a new entry can be found in the table again; it
      always can if `HT_Delete` repairs `last`. */
  datatype NickOp =
    | Show(id: WString, local: WString, ingame: WString, autoSave: bool, kept: bool)
    | Rename(id: WString, local: WString, text: WString, kept: bool)

  function Filed(n: Nicks, id: WString, nick: WString, kept: bool): map<Dword, WString> {
    if Key(id) in n.cache || kept then n.cache[Key(id) := nick] else n.cache
  }

  /** The nicknames afterwards, and the one the player then holds. */
  datatype Outcome = Outcome(nicks: Nicks, local: WString)

  /** The loop body of `UpdatePlayerList`. `loads` are the stored strings that `LoadNick` reads back. */
  function OnShow(loads: WString -> bool, n: Nicks, op: NickOp): Outcome
    requires op.Show?
  {
    if op.local != [] || op.id == [] then Outcome(n, op.local)
    else if Key(op.id) in n.cache then Outcome(n, n.cache[Key(op.id)])
    else if op.id in n.store && loads(n.store[op.id]) then
      Outcome(n.(cache := Filed(n, op.id, n.store[op.id], op.kept)), n.store[op.id])
    else if op.autoSave then
      Outcome(Nicks(Filed(n, op.id, op.ingame, op.kept), n.store[op.id := op.ingame]), op.ingame)
    else Outcome(n, op.local)
  }

  /** What `WM_APP_CLOSE_RENAME_DLG` does with a submitted text; the empty text deletes the nickname. */
  function OnRename(n: Nicks, op: NickOp): Outcome
    requires op.Rename?
  {
    if op.text == op.local || !ValidId(op.id) then Outcome(n, op.local)
    else if op.text == [] then Outcome(Nicks(n.cache - {Key(op.id)}, n.store - {op.id}), [])
    else Outcome(Nicks(Filed(n, op.id, op.text, op.kept), n.store[op.id := op.text]), op.text)
  }

  function Apply(loads: WString -> bool, n: Nicks, op: NickOp): Outcome {
    if op.Show? then OnShow(loads, n, op) else OnRename(n, op)
  }

  function ApplyAll(loads: WString -> bool, n: Nicks, ops: seq<NickOp>): Nicks
    decreases |ops|
  {
    if ops == [] then n else ApplyAll(loads, Apply(loads, n, ops[0]).nicks, ops[1..])
  }

  // ---------------------------------------------------------------- coherence

  /** Every cached nickname is the stored one. */
  predicate Coherent(n: Nicks, ids: set<WString>) {
    forall id <- ids :: Key(id) in n.cache ==> id in n.store && n.store[id] == n.cache[Key(id)]
  }

  predicate NoCollisions(ids: set<WString>) {
    forall a <- ids, b <- ids :: Key(a) == Key(b) ==> a == b
  }

  predicate Among(ops: seq<NickOp>, ids: set<WString>) {
    forall i :: 0 <= i < |ops| ==> ops[i].id in ids
  }

  lemma OpKeepsCoherence(loads: WString -> bool, n: Nicks, ids: set<WString>, op: NickOp)
    requires NoCollisions(ids) && Coherent(n, ids) && op.id in ids
    ensures Coherent(Apply(loads, n, op).nicks, ids)
  {
  }

  /** Over any interleaving of shown lists, automatic saves, renames and deletions. */
  lemma {:induction false} StaysCoherent(loads: WString -> bool, n: Nicks, ids: set<WString>, ops: seq<NickOp>)
    requires NoCollisions(ids) && Coherent(n, ids) && Among(ops, ids)
    ensures Coherent(ApplyAll(loads, n, ops), ids)
    decreases |ops|
  {
    if ops != [] {
      OpKeepsCoherence(loads, n, ids, ops[0]);
      StaysCoherent(loads, Apply(loads, n, ops[0]).nicks, ids, ops[1..]);
    }
  }

  lemma ApplyOne(loads: WString -> bool, n: Nicks, op: NickOp)
    ensures ApplyAll(loads, n, [op]) == Apply(loads, n, op).nicks
  {
    var m := Apply(loads, n, op).nicks;
    assert [op][1..] == [];
    assert ApplyAll(loads, m, []) == m;
  }

  /** A single player shown breaks coherence if the identifier's hash is shared. */
  lemma CollisionBreaksCoherence(loads: WString -> bool, a: WString, b: WString, nick: WString)
    requires a != [] && a != b && Key(a) == Key(b)
    ensures var n := Apply(loads, Nicks(map[], map[]), Show(a, [], nick, true, true)).nicks;
      Key(b) in n.cache && b !in n.store
  {
  }

  /** Exactly the sets of identifiers without collisions stay coherent, from empty, whatever happens: lists show players
      under any identifier, valid or not. */
  lemma CoherentIffNoCollisions(loads: WString -> bool, ids: set<WString>)
    ensures NoCollisions(ids) <==>
      forall ops: seq<NickOp> :: Among(ops, ids) ==> Coherent(ApplyAll(loads, Nicks(map[], map[]), ops), ids)
  {
    var empty := Nicks(map[], map[]);
    if NoCollisions(ids) {
      forall ops: seq<NickOp> | Among(ops, ids) ensures Coherent(ApplyAll(loads, empty, ops), ids) {
        StaysCoherent(loads, empty, ids, ops);
      }
    } else {
      var a, b :| a in ids && b in ids && Key(a) == Key(b) && a != b;
      var x, y := if a != [] then a else b, if a != [] then b else a;
      var ops := [Show(x, [], [0x61], true, true)];
      CollisionBreaksCoherence(loads, x, y, [0x61]);
      ApplyOne(loads, empty, ops[0]);
      assert Among(ops, ids) && !Coherent(ApplyAll(loads, empty, ops), ids);
    }
  }

  // ---------------------------------------------------------------- a collision

  /** Two valid identifiers that differ in all their characters and share their hash: "00000" and "i8knj". */
  const ONE_ID: WString := [0x30, 0x30, 0x30, 0x30, 0x30]
  const OTHER_ID: WString := [0x69, 0x38, 0x6B, 0x6E, 0x6A]

  lemma FeedOneId()
    ensures FeedWide(0xFFFFFFFF, ONE_ID) == FeedWide(0xA6DCAC08, [0x30, 0x30])
  {
    FeedOne(0xFFFFFFFF, [0x30, 0x30, 0x30, 0x30, 0x30], 0xCF, 0x65C52D24, 0x653AD2DB);
    FeedOne(0x653AD2DB, [0x30, 0x30, 0x30, 0x30], 0xEB, 0xEEE2ED18, 0xEE87D7CA);
    FeedOne(0xEE87D7CA, [0x30, 0x30, 0x30], 0xFA, 0xA6322BDF, 0xA6DCAC08);
  }

  lemma FeedOneIdEnd()
    ensures FeedWide(0xA6DCAC08, [0x30, 0x30]) == 0xAEC867FE
  {
    FeedOne(0xA6DCAC08, [0x30, 0x30], 0x38, 0xF23A8028, 0xF29C5C84);
    FeedOne(0xF29C5C84, [0x30], 0xB4, 0xAE3AFBA2, 0xAEC867FE);
  }

  lemma FeedOtherId()
    ensures FeedWide(0xFFFFFFFF, OTHER_ID) == FeedWide(0xA6DCF656, [0x6E, 0x6A])
  {
    FeedOne(0xFFFFFFFF, [0x69, 0x38, 0x6B, 0x6E, 0x6A], 0x96, 0x3F9B762C, 0x3F6489D3);
    FeedOne(0x3F6489D3, [0x38, 0x6B, 0x6E, 0x6A], 0xEB, 0xEEE2ED18, 0xEEDD8991);
    FeedOne(0xEEDD8991, [0x6B, 0x6E, 0x6A], 0xFA, 0xA6322BDF, 0xA6DCF656);
  }

  lemma FeedOtherIdEnd()
    ensures FeedWide(0xA6DCF656, [0x6E, 0x6A]) == 0xAEC867FE
  {
    FeedOne(0xA6DCF656, [0x6E, 0x6A], 0x38, 0xF23A8028, 0xF29C5CDE);
    FeedOne(0xF29C5CDE, [0x6A], 0xB4, 0xAE3AFBA2, 0xAEC867FE);
  }

  /** A known hash. */
  lemma KnownHash()
    ensures CrcWide(ONE_ID) == 0x51379801
  {
    FeedOneId();
    FeedOneIdEnd();
    Inverted();
  }

  lemma Inverted()
    ensures Xor(0xAEC867FE, ALL_ONES) == 0x51379801
  {
  }

  lemma SameFeedSameKey(a: WString, b: WString)
    requires FeedWide(ALL_ONES, a) == FeedWide(ALL_ONES, b)
    ensures Key(a) == Key(b)
  {
  }

  lemma IdsAreValid()
    ensures ValidId(ONE_ID) && ValidId(OTHER_ID) && ONE_ID[0] != OTHER_ID[0]
  {
  }

  lemma IdsCollide()
    ensures ValidId(ONE_ID) && ValidId(OTHER_ID) && ONE_ID != OTHER_ID && Key(ONE_ID) == Key(OTHER_ID)
  {
    IdsAreValid();
    SameFeedSameKey(ONE_ID, OTHER_ID) by {
      FeedOneId();
      FeedOneIdEnd();
      FeedOtherId();
      FeedOtherIdEnd();
    }
  }

  /** So the set of all valid identifiers is not safe: a nickname given to the one player is shown for the other. */
  lemma WrongNicknameIsShown(loads: WString -> bool, nick: WString, ingame: WString, autoSave: bool)
    requires nick != []
    ensures var n := OnRename(Nicks(map[], map[]), Rename(ONE_ID, [], nick, true)).nicks;
      OnShow(loads, n, Show(OTHER_ID, [], ingame, autoSave, true)).local == nick && OTHER_ID !in n.store
  {
    IdsCollide();
  }

  /** What is shown for a player without a nickname, while the cache is coherent: the stored nickname if the cache or
      the registry yields it, the in-game name if that is being saved, and otherwise nothing. */
  lemma ShownIsStored(loads: WString -> bool, n: Nicks, ids: set<WString>, op: NickOp)
    requires Coherent(n, ids) && op.Show? && op.id in ids && op.id != [] && op.local == []
    ensures var r := OnShow(loads, n, op);
      if op.id in n.store && (Key(op.id) in n.cache || loads(n.store[op.id])) then
        r.local == n.store[op.id] && r.nicks.store == n.store
      else if op.autoSave then r.local == op.ingame && r.nicks.store == n.store[op.id := op.ingame]
      else r.local == [] && r.nicks == n
  {
  }

  /** What is shown from the registry, or saved, is also cached, if its entry can be kept, and nothing else changes. */
  lemma ShownIsCached(loads: WString -> bool, n: Nicks, op: NickOp)
    requires op.Show? && op.id != [] && op.local == [] && Key(op.id) !in n.cache
    ensures var r := OnShow(loads, n, op);
      if op.id in n.store && loads(n.store[op.id]) then
        r == Outcome(Nicks(if op.kept then n.cache[Key(op.id) := n.store[op.id]] else n.cache, n.store), n.store[op.id])
      else if op.autoSave then
        r == Outcome(Nicks(if op.kept then n.cache[Key(op.id) := op.ingame] else n.cache,
                           n.store[op.id := op.ingame]), op.ingame)
      else r == Outcome(n, [])
  {
  }

  /** No operation on other identifiers changes what is cached or stored for `id`. */
  lemma {:induction false} OthersLeaveAlone(loads: WString -> bool, n: Nicks, ids: set<WString>, id: WString,
                                            ops: seq<NickOp>)
    requires NoCollisions(ids) && id in ids && Among(ops, ids - {id})
    ensures var m := ApplyAll(loads, n, ops);
      && (Key(id) in m.cache <==> Key(id) in n.cache) && (Key(id) in n.cache ==> m.cache[Key(id)] == n.cache[Key(id)])
      && (id in m.store <==> id in n.store) && (id in n.store ==> m.store[id] == n.store[id])
    decreases |ops|
  {
    if ops != [] {
      var m := Apply(loads, n, ops[0]).nicks;
      assert Key(ops[0].id) != Key(id);
      OthersLeaveAlone(loads, m, ids, id, ops[1..]);
    }
  }

  /** A nickname that was set is shown again, after a new scan has cleared the players and whatever happened to others
      in between, if and only if its entry was kept, or the registry can give it back, or it is being saved as the
      in-game name anyway. */
  lemma RenameIsShownAgainIff(loads: WString -> bool, n: Nicks, ids: set<WString>, rename: NickOp, ops: seq<NickOp>,
                              show: NickOp)
    requires NoCollisions(ids) && Coherent(n, ids) && rename.id in ids && rename.id != []
    requires rename.Rename? && ValidId(rename.id) && rename.text != [] && rename.text != rename.local
    requires Among(ops, ids - {rename.id})
    requires show.Show? && show.id == rename.id && show.local == []
    ensures OnShow(loads, ApplyAll(loads, OnRename(n, rename).nicks, ops), show).local == rename.text <==>
      || rename.kept || Key(rename.id) in n.cache || loads(rename.text)
      || (show.autoSave && show.ingame == rename.text)
  {
    var m := OnRename(n, rename).nicks;
    OthersLeaveAlone(loads, m, ids, rename.id, ops);
  }

  // ---------------------------------------------------------------- deleting a nickname

  /** The empty text, submitted for a player who has a nickname and a valid identifier: the nickname is gone from the
      player, from the registry and from the cache. All others are stored as before, and cached as before unless they
      share the hash. */
  lemma EmptyTextDeletes(loads: WString -> bool, n: Nicks, id: WString, local: WString, kept: bool)
    requires ValidId(id) && local != []
    ensures var r := Apply(loads, n, Rename(id, local, [], kept));
      && r.local == [] && id !in r.nicks.store && Key(id) !in r.nicks.cache
      && (forall other :: other != id ==>
        && (other in r.nicks.store <==> other in n.store)
        && (other in n.store ==> r.nicks.store[other] == n.store[other]))
      && (forall key :: key != Key(id) ==>
        && (key in r.nicks.cache <==> key in n.cache)
        && (key in n.cache ==> r.nicks.cache[key] == n.cache[key]))
  {
  }

  /** A nickname is set for exactly the player whose it is: nothing else is stored, and nothing else is cached. */
  lemma TextIsSet(loads: WString -> bool, n: Nicks, id: WString, local: WString, text: WString, kept: bool)
    requires ValidId(id) && text != [] && text != local
    ensures var r := Apply(loads, n, Rename(id, local, text, kept));
      && r.local == text && r.nicks.store == n.store[id := text]
      && (kept || Key(id) in n.cache ==> r.nicks.cache == n.cache[Key(id) := text])
  {
  }

  /** The same text again, or an identifier that is not valid, changes nothing. */
  lemma NothingIsSet(loads: WString -> bool, n: Nicks, id: WString, local: WString, text: WString, kept: bool)
    requires text == local || !ValidId(id)
    ensures Apply(loads, n, Rename(id, local, text, kept)) == Outcome(n, local)
  {
  }

  /** A deleted nickname does not come back, whatever happens to other players, even if what is shown next has been lost
      from the cache: the list shows nothing for the player, or the in-game name if that is being saved. */
  lemma DeletedStaysDeleted(loads: WString -> bool, n: Nicks, ids: set<WString>, id: WString, local: WString,
                            kept: bool, ops: seq<NickOp>, ingame: WString, autoSave: bool, keptLater: bool)
    requires NoCollisions(ids) && id in ids && id != [] && ValidId(id) && local != [] && Among(ops, ids - {id})
    ensures var m := ApplyAll(loads, Apply(loads, n, Rename(id, local, [], kept)).nicks, ops);
      && id !in m.store && Key(id) !in m.cache
      && OnShow(loads, m, Show(id, [], ingame, autoSave, keptLater)).local == if autoSave then ingame else []
  {
    EmptyTextDeletes(loads, n, id, local, kept);
    OthersLeaveAlone(loads, Apply(loads, n, Rename(id, local, [], kept)).nicks, ids, id, ops);
  }

  /** Under a hash of its own, every other cached nickname stays, too. */
  lemma OthersStayCached(loads: WString -> bool, n: Nicks, ids: set<WString>, id: WString, local: WString, kept: bool,
                         other: WString)
    requires NoCollisions(ids) && id in ids && other in ids && other != id && ValidId(id) && local != []
    ensures var r := Apply(loads, n, Rename(id, local, [], kept));
      && (Key(other) in r.nicks.cache <==> Key(other) in n.cache)
      && (Key(other) in n.cache ==> r.nicks.cache[Key(other)] == n.cache[Key(other)])
  {
    EmptyTextDeletes(loads, n, id, local, kept);
  }

  // ---------------------------------------------------------------- the registry

  /** The bytes that are stored for a string. `SaveNick` leaves its terminator out; `completes` says whether the
      registry puts it back. */
  function StoredBytes(completes: bool, s: WString): nat {
    2 * |s| + if completes && s != [] then 2 else 0
  }

  /** What `LoadNick` returns for a stored string: 0 if it does not fit the 64 bytes that are asked for, and otherwise
      one character less than is stored, as a DWORD. */
  function LoadReturns(completes: bool, s: WString): nat {
    var size := StoredBytes(completes, s);
    if size > PLAYER_NAME_LEN then 0 else (size / 2 - 1) % 0x1_0000_0000
  }

  /** The strings that count as loaded. */
  function Registry(completes: bool): WString -> bool {
    (s: WString) => LoadReturns(completes, s) != 0
  }

  /** They are those of 2 to 32 characters, or of 1 to 31 if the registry puts the terminator back, and the empty
      one. */
  lemma LoadedLengths(completes: bool, s: WString)
    ensures Registry(completes)(s) <==> s == [] || (if completes then 1 <= |s| <= 31 else 2 <= |s| <= 32)
    ensures LoadReturns(completes, []) == 0xFFFF_FFFF
  {
    assert LoadReturns(completes, s) == if StoredBytes(completes, s) > PLAYER_NAME_LEN then 0
      else if s == [] then 0xFFFF_FFFF else |s| - if completes then 0 else 1;
  }

  /** For a nickname whose entry was lost: it comes back if it has 2 to 32 characters, or 1 to 31, and otherwise only if
      it is saved again. */
  lemma LostEntryComesBackIff(completes: bool, n: Nicks, ids: set<WString>, rename: NickOp, ops: seq<NickOp>,
                              show: NickOp)
    requires NoCollisions(ids) && Coherent(n, ids) && rename.id in ids && rename.id != []
    requires rename.Rename? && ValidId(rename.id) && rename.text != [] && rename.text != rename.local
    requires !rename.kept && Key(rename.id) !in n.cache
    requires Among(ops, ids - {rename.id})
    requires show.Show? && show.id == rename.id && show.local == []
    ensures var loads, length := Registry(completes), |rename.text|;
      OnShow(loads, ApplyAll(loads, OnRename(n, rename).nicks, ops), show).local == rename.text <==>
        || (if completes then length <= 31 else 2 <= length <= 32)
        || (show.autoSave && show.ingame == rename.text)
  {
    RenameIsShownAgainIff(Registry(completes), n, ids, rename, ops, show);
    LoadedLengths(completes, rename.text);
  }

  // ---------------------------------------------------------------- the code

  /** A player of the list, as far as nicknames go. */
  datatype Player = Player(userId: WString, ingameName: WString, localName: WString)

  /** A player before and after the list is shown: only one with an identifier and without a nickname gains one, and it
      is then stored. It is the stored one if `HT_Delete` is repaired, or if the registry can give it back. */
  predicate Shown(repair: bool, loads: WString -> bool, n: Nicks, was: Player, now: Player) {
    && now == was.(localName := now.localName)
    && (now != was ==>
      && was.localName == [] && was.userId != [] && now.userId in n.store
      && (repair || loads(now.localName) ==> n.store[now.userId] == now.localName)
      && (repair ==> Key(now.userId) in n.cache))
  }

  /** What comes later in the list does not take it back. */
  lemma ShownStays(repair: bool, loads: WString -> bool, n: Nicks, op: NickOp, was: Player, now: Player)
    requires op.Show? && Shown(repair, loads, n, was, now)
    ensures Shown(repair, loads, OnShow(loads, n, op).nicks, was, now)
  {
  }

  lemma PlayerIsShown(repair: bool, loads: WString -> bool, n: Nicks, ids: set<WString>, op: NickOp, was: Player)
    requires Coherent(n, ids) && op.Show? && op.id in ids && op.id == was.userId && op.local == was.localName
    requires repair ==> op.kept
    ensures var r := OnShow(loads, n, op); Shown(repair, loads, r.nicks, was, was.(localName := r.local))
  {
  }

  /** One player after another keeps the cache coherent, and what has been shown. */
  lemma StepShows(repair: bool, loads: WString -> bool, n: Nicks, ids: set<WString>, op: NickOp, was: Player)
    requires NoCollisions(ids) && Coherent(n, ids) && op.Show? && op.id in ids
    requires op.id == was.userId && op.local == was.localName && (repair ==> op.kept)
    ensures var r := OnShow(loads, n, op);
      && Coherent(r.nicks, ids) && Shown(repair, loads, r.nicks, was, was.(localName := r.local))
      && (forall p: Player, q: Player :: Shown(repair, loads, n, p, q) ==> Shown(repair, loads, r.nicks, p, q))
      && (forall id <- n.store :: id in r.nicks.store)
  {
    OpKeepsCoherence(loads, n, ids, op);
    PlayerIsShown(repair, loads, n, ids, op, was);
    forall p: Player, q: Player | Shown(repair, loads, n, p, q)
      ensures Shown(repair, loads, OnShow(loads, n, op).nicks, p, q) {
      ShownStays(repair, loads, n, op, p, q);
    }
  }

  lemma {:induction false} TerminatedText(s: WString)
    requires IsText(s)
    ensures UpToZero(s + [0], 0) == s
  {
    if s != [] {
      assert (s + [0])[1..] == s[1..] + [0];
      TerminatedText(s[1..]);
    }
  }

  method UserIDIsValid(userId: WString) returns (valid: bool)
    ensures valid == ValidId(userId)
  {
    var i := 0;
    while i < |userId|
      invariant i <= |userId| && i <= USER_ID_LEN && forall j :: 0 <= j < i ==> IsAlnum(userId[j])
    {
      if !IsAlnum(userId[i]) || i >= USER_ID_LEN {
        return false;
      }
      i := i + 1;
    }
    return true;
  }

  /** `pHtLocalNames` and the registry. `repair` selects the two readings of line 167 of bzcchtable.c. */
  class NickNames {
    const table: Table
    const repair: bool
    const loads: WString -> bool
    var store: map<WString, WString>

    ghost predicate Valid()
      reads this, table, table.nodes
    {
      table.Valid() && (repair ==> table.LastIsFinal()) && forall id <- store :: IsNick(store[id])
    }

    ghost function Abs(): Nicks
      reads this, table
    {
      Nicks(table.Contents(), store)
    }

    /** At the start, nothing is cached. */
    constructor (repair: bool, loads: WString -> bool, store: map<WString, WString>)
      requires forall id <- store :: IsNick(store[id])
      ensures Valid() && fresh(table) && this.repair == repair && this.loads == loads
      ensures Abs() == Nicks(map[], store)
    {
      this.repair, this.loads, this.store := repair, loads, store;
      table := new Table();
    }

    /** Files a nickname under an identifier that a lookup has just missed. */
    method FileNew(id: WString, nick: WString) returns (ghost kept: bool)
      requires Valid() && IsText(id) && IsNick(nick) && Key(id) !in table.Contents()
      modifies table, table.last
      ensures Valid() && (repair ==> kept) && store == old(store)
      ensures table.Contents() == Filed(old(Abs()), id, nick, kept)
      ensures table.last == old(table.last) || fresh(table.last)
    {
      kept := table.LastIsFinal();
      TerminatedText(id);
      TerminatedText(nick);
      var crc32 := CalcHash(id + [0]);
      MapOfAppend(table.rows, Row(crc32, nick));
      assert table.rows + [] == table.rows;
      var ok := table.New(crc32, nick + [0], true);
    }

    /** The loop body of `UpdatePlayerList`. */
    method ShowPlayer(p: Player, autoNickSave: bool) returns (q: Player, ghost kept: bool)
      requires Valid() && IsText(p.userId) && IsNick(p.ingameName)
      modifies this`store, table, table.last
      ensures Valid() && (repair ==> kept)
      ensures OnShow(loads, old(Abs()), Show(p.userId, p.localName, p.ingameName, autoNickSave, kept)) ==
        Outcome(Abs(), q.localName)
      ensures q == p.(localName := q.localName) && (table.last == old(table.last) || fresh(table.last))
    {
      q, kept := p, true;
      if p.localName == [] && p.userId != [] {
        TerminatedText(p.userId);
        var crc32 := CalcHash(p.userId + [0]);
        var hit := table.FindCrc32(crc32);
        if hit.Some? {
          q := q.(localName := hit.value);
        } else if p.userId in store && loads(store[p.userId]) {
          q := q.(localName := store[p.userId]);
          kept := FileNew(p.userId, q.localName);
        } else if autoNickSave {
          q := q.(localName := p.ingameName);
          kept := FileNew(p.userId, q.localName);
          store := store[p.userId := q.localName];
        }
      }
    }

    /** The loop of `UpdatePlayerList`: players only gain nicknames, only stored ones, and the cache stays coherent. */
    method ShowPlayers(players: array<Player>, count: nat, autoNickSave: bool, ghost ids: set<WString>)
      requires Valid() && count <= players.Length && NoCollisions(ids) && Coherent(Abs(), ids)
      requires forall i :: 0 <= i < count ==>
        IsText(players[i].userId) && IsNick(players[i].ingameName) && players[i].userId in ids
      modifies this`store, table, table.last, players
      ensures Valid() && Coherent(Abs(), ids)
      ensures forall i :: 0 <= i < count ==> Shown(repair, loads, Abs(), old(players[i]), players[i])
      ensures forall i :: count <= i < players.Length ==> players[i] == old(players[i])
      ensures forall id <- old(store) :: id in store
    {
      var i := 0;
      while i < count
        invariant i <= count && Valid() && Coherent(Abs(), ids)
        invariant table.last == old(table.last) || fresh(table.last)
        invariant forall j :: i <= j < players.Length ==> players[j] == old(players[j])
        invariant forall j :: 0 <= j < i ==> Shown(repair, loads, Abs(), old(players[j]), players[j])
        invariant forall id <- old(store) :: id in store
      {
        ghost var before := Abs();
        var p := players[i];
        var q;
        ghost var kept;
        q, kept := ShowPlayer(p, autoNickSave);
        StepShows(repair, loads, before, ids, Show(p.userId, p.localName, p.ingameName, autoNickSave, kept), p);
        players[i] := q;
        i := i + 1;
      }
    }

    /** `HT_Delete` and `DeleteNick`. */
    method Forget(id: WString)
      requires Valid() && IsText(id)
      modifies this`store, table, table.nodes
      ensures Valid() && Abs() == Nicks(old(Abs()).cache - {Key(id)}, old(store) - {id})
    {
      TerminatedText(id);
      var found := table.Delete(id + [0], repair);
      store := store - {id};
    }

    /** `HT_Set` and `SaveNick`. */
    method Keep(id: WString, text: WString) returns (ghost kept: bool)
      requires Valid() && IsText(id) && IsNick(text)
      modifies this`store, table, table.nodes, table.last
      ensures Valid() && (repair ==> kept) && Abs() == Nicks(Filed(old(Abs()), id, text, kept), old(store)[id := text])
    {
      kept := table.LastIsFinal();
      TerminatedText(id);
      TerminatedText(text);
      var ok := table.Set(id + [0], text + [0], true);
      store := store[id := text];
    }

    /** `WM_APP_CLOSE_RENAME_DLG` with a submitted text. */
    method RenamePlayer(p: Player, text: WString) returns (q: Player, ghost kept: bool)
      requires Valid() && IsText(p.userId) && IsNick(text)
      modifies this`store, table, table.nodes, table.last
      ensures Valid() && (repair ==> kept)
      ensures OnRename(old(Abs()), Rename(p.userId, p.localName, text, kept)) == Outcome(Abs(), q.localName)
      ensures q == p.(localName := q.localName)
    {
      q, kept := p, true;
      if text == p.localName {
        return;
      }
      var valid := UserIDIsValid(p.userId);
      if !valid {
        return;
      }
      q := q.(localName := text);
      if text == [] {
        Forget(p.userId);
      } else {
        kept := Keep(p.userId, text);
      }
    }
  }
}
