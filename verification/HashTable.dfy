/** The linked table of bzcchtable.c: entries found by the hash of a reference string, kept in one chain. */
module HashTable {
  import opened Common
  import opened Crc32

  const HT_MAX_STR := 64

  type Tchar = bv16
  type WString = seq<Tchar>

  /** A DWORD, as a number. */
  type Dword = nat

  /** What a terminated string holds. */
  function TextOf(s: WString): WString { UpToZero(s, 0) }

  /** A terminated string that fits an entry, terminator included. */
  predicate Fits(s: WString) {
    0 in s && |TextOf(s)| < HT_MAX_STR
  }

  /** The hash under which a reference string is filed. */
  function HashOf(reference: WString): Dword { CrcWide(TextOf(reference)) as nat }

  method CalcHash(reference: WString) returns (hash: Dword)
    requires 0 in reference
    ensures hash == HashOf(reference)
  {
    var crc32 := CalcCRC32(reference);
    return crc32 as nat;
  }

  class Entry {
    var crc32: Dword
    var value: WString
    var next: Entry?

    constructor (crc32: Dword)
      ensures this.crc32 == crc32 && next == null && |value| == HT_MAX_STR
    {
      this.crc32 := crc32;
      value := seq(HT_MAX_STR, _ => 0);
      next := null;
    }

    /** `HT_CopyStr`. */
    method CopyStr(s: WString)
      requires Fits(s) && |value| == HT_MAX_STR
      modifies this`value
      ensures |value| == HT_MAX_STR && 0 in value && TextOf(value) == TextOf(s)
    {
      ghost var text := TextOf(s);
      var i := 0;
      while i < HT_MAX_STR && s[i] != 0
        invariant i <= |text| < |s| && |value| == HT_MAX_STR
        invariant value[..i] == text[..i]
        decreases |text| - i
      {
        value := value[i := s[i]];
        assert value[..i + 1] == text[..i + 1];
        i := i + 1;
      }
      assert i == |text|;
      value := value[i := 0];
      assert value[..i] == text;
      TextEnds(value, i);
    }
  }

  lemma {:induction false} TextEnds(s: WString, i: nat)
    requires i < |s| && s[i] == 0 && forall k :: 0 <= k < i ==> s[k] != 0
    ensures TextOf(s) == s[..i]
  {
    if i > 0 {
      TextEnds(s[1..], i - 1);
      assert s[..i] == [s[0]] + s[1..][..i - 1];
    }
  }

  // ---------------------------------------------------------------- the meaning of a chain

  datatype Row = Row(key: Dword, text: WString)

  /** The map that a chain of entries stands for. */
  function MapOf(rows: seq<Row>): map<Dword, WString> {
    if rows == [] then map[] else MapOf(rows[..|rows| - 1])[rows[|rows| - 1].key := rows[|rows| - 1].text]
  }

  predicate DistinctKeys(rows: seq<Row>) {
    forall i, j :: 0 <= i < j < |rows| ==> rows[i].key != rows[j].key
  }

  lemma {:induction false} MapOfHas(rows: seq<Row>, i: nat)
    requires DistinctKeys(rows) && i < |rows|
    ensures rows[i].key in MapOf(rows) && MapOf(rows)[rows[i].key] == rows[i].text
  {
    if i < |rows| - 1 {
      assert rows[..|rows| - 1][i] == rows[i];
      MapOfHas(rows[..|rows| - 1], i);
    }
  }

  lemma {:induction false} MapOfMisses(rows: seq<Row>, key: Dword)
    ensures key !in MapOf(rows) <==> forall i :: 0 <= i < |rows| ==> rows[i].key != key
  {
    if rows != [] {
      var init := rows[..|rows| - 1];
      MapOfMisses(init, key);
      if i :| 0 <= i < |rows| && rows[i].key == key {
        assert i < |init| ==> init[i].key == key;
      } else {
        assert forall i :: 0 <= i < |init| ==> init[i] == rows[i];
      }
    }
  }

  lemma MapOfAppend(rows: seq<Row>, row: Row)
    ensures MapOf(rows + [row]) == MapOf(rows)[row.key := row.text]
  {
    assert (rows + [row])[..|rows|] == rows;
  }

  lemma {:induction false} MapOfUpdate(rows: seq<Row>, i: nat, text: WString)
    requires DistinctKeys(rows) && i < |rows|
    ensures MapOf(rows[i := Row(rows[i].key, text)]) == MapOf(rows)[rows[i].key := text]
  {
    var new_ := rows[i := Row(rows[i].key, text)];
    var n := |rows| - 1;
    if i < n {
      MapOfUpdate(rows[..n], i, text);
      assert new_[..n] == rows[..n][i := Row(rows[i].key, text)];
      assert rows[i].key != rows[n].key;
    } else {
      assert new_[..n] == rows[..n];
    }
  }

  /** The position of a key, or the length if there is none. */
  function IndexOf(rows: seq<Row>, key: Dword): (i: nat)
    ensures i <= |rows| && (i < |rows| ==> rows[i].key == key)
    ensures forall j :: 0 <= j < i ==> rows[j].key != key
  {
    if rows == [] then 0
    else if rows[0].key == key then 0
    else
      var i := IndexOf(rows[1..], key);
      assert forall j :: 1 <= j < i + 1 ==> rows[j] == rows[1..][j - 1];
      i + 1
  }

  lemma IndexOfIs(rows: seq<Row>, key: Dword, i: nat)
    requires i <= |rows| && (i < |rows| ==> rows[i].key == key)
    requires forall j :: 0 <= j < i ==> rows[j].key != key
    ensures IndexOf(rows, key) == i
  {
  }

  /** The rows after a string is filed under a key, when there is room for a new entry or not. */
  function Assigned(rows: seq<Row>, key: Dword, text: WString, room: bool): seq<Row> {
    var i := IndexOf(rows, key);
    if i < |rows| then rows[i := Row(key, text)] else if room then rows + [Row(key, text)] else rows
  }

  lemma AssignedMeans(rows: seq<Row>, key: Dword, text: WString, room: bool)
    requires DistinctKeys(rows)
    ensures MapOf(Assigned(rows, key, text, room)) ==
      if key in MapOf(rows) || room then MapOf(rows)[key := text] else MapOf(rows)
    ensures IndexOf(rows, key) < |rows| <==> key in MapOf(rows)
  {
    var i := IndexOf(rows, key);
    MapOfMisses(rows, key);
    if i < |rows| {
      MapOfUpdate(rows, i, text);
    } else {
      MapOfAppend(rows, Row(key, text));
    }
  }

  function Without<T>(s: seq<T>, i: nat): (r: seq<T>)
    requires i < |s|
    ensures |r| == |s| - 1
    ensures forall j :: 0 <= j < i ==> r[j] == s[j]
    ensures forall j :: i <= j < |r| ==> r[j] == s[j + 1]
  {
    s[..i] + s[i + 1..]
  }

  lemma WithoutStaysDistinct(rows: seq<Row>, i: nat)
    requires DistinctKeys(rows) && i < |rows|
    ensures DistinctKeys(Without(rows, i))
  {
  }

  lemma RemoveOther(m: map<Dword, WString>, key: Dword, text: WString, other: Dword)
    requires key != other
    ensures m[key := text] - {other} == (m - {other})[key := text]
  {
  }

  lemma {:induction false} MapOfWithout(rows: seq<Row>, i: nat)
    requires DistinctKeys(rows) && i < |rows|
    ensures MapOf(Without(rows, i)) == MapOf(rows) - {rows[i].key}
  {
    var n := |rows| - 1;
    var init := rows[..n];
    if i < n {
      MapOfWithout(init, i);
      assert Without(rows, i) == Without(init, i) + [rows[n]];
      MapOfAppend(Without(init, i), rows[n]);
      RemoveOther(MapOf(init), rows[n].key, rows[n].text, rows[i].key);
    } else {
      assert Without(rows, i) == init;
      MapOfMisses(init, rows[n].key);
    }
  }

  /** What is found under a key, and what remains when it is taken out. */
  lemma RemovedMeans(rows: seq<Row>, key: Dword)
    requires DistinctKeys(rows)
    ensures var k := IndexOf(rows, key);
      && (k < |rows| <==> key in MapOf(rows))
      && MapOf(if k < |rows| then Without(rows, k) else rows) == MapOf(rows) - {key}
      && (k < |rows| ==> (k + 1 == |rows| <==> key == rows[|rows| - 1].key))
  {
    MapOfMisses(rows, key);
    if IndexOf(rows, key) < |rows| {
      MapOfWithout(rows, IndexOf(rows, key));
    }
  }

  function At(nodes: seq<Entry>, i: nat): Entry? {
    if i < |nodes| then nodes[i] else null
  }

  /** `nodes` is the chain from `first`, and `rows` what its entries hold. Every entry ever allocated is live, that is
      in the chain, or freed, or lost: allocated but reachable from nowhere. */
  class Table {
    var first: Entry?
    var last: Entry?
    ghost var nodes: seq<Entry>
    ghost var rows: seq<Row>
    ghost var freed: set<Entry>
    ghost var lost: set<Entry>

    /** What the table means. */
    ghost function Contents(): map<Dword, WString>
      reads this
    {
      MapOf(rows)
    }

    ghost function Live(): set<Entry>
      reads this
    {
      set n | n in nodes
    }

    ghost function Allocated(): set<Entry>
      reads this
    {
      Live() + freed + lost
    }

    /** The chain is acyclic and complete, and holds `rows`. */
    ghost predicate Chained()
      reads this, nodes
    {
      && |nodes| == |rows| && first == At(nodes, 0)
      && (forall i {:trigger nodes[i].next} :: 0 <= i < |nodes| ==> nodes[i].next == At(nodes, i + 1))
      && (forall i {:trigger nodes[i].crc32} :: 0 <= i < |nodes| ==> nodes[i].crc32 == rows[i].key)
      && (forall i {:trigger nodes[i].value} :: 0 <= i < |nodes| ==>
        |nodes[i].value| == HT_MAX_STR && 0 in nodes[i].value && TextOf(nodes[i].value) == rows[i].text)
    }

    /** No entry is counted twice, and `last` is an entry: the final one if it is live. */
    ghost predicate Accounted()
      reads this
    {
      && (forall n <- nodes :: n !in freed && n !in lost) && freed !! lost
      && (nodes != [] ==> last != null)
      && (last != null ==> last in Allocated() && (last in nodes ==> last == nodes[|nodes| - 1]))
    }

    ghost predicate Valid()
      reads this, nodes
    {
      Chained() && Accounted() && DistinctKeys(rows)
    }

    /** Entries with different hashes are different entries. */
    lemma OnlyOnce(k: nat)
      requires Chained() && DistinctKeys(rows) && k < |nodes|
      ensures forall j :: 0 <= j < |nodes| && j != k ==> nodes[j] != nodes[k]
    {
      forall j | 0 <= j < |nodes| && j != k ensures nodes[j] != nodes[k] {
        assert nodes[j].crc32 != nodes[k].crc32;
      }
    }

    /** `last` is the final entry of the chain. */
    ghost predicate LastIsFinal()
      reads this
    {
      nodes != [] ==> last == nodes[|nodes| - 1]
    }

    constructor ()
      ensures Valid() && LastIsFinal() && Contents() == map[] && Allocated() == {}
    {
      first, last := null, null;
      nodes, rows, freed, lost := [], [], {}, {};
    }

    /** `HT_Find_crc32`. */
    method FindCrc32(crc32: Dword) returns (r: Option<WString>)
      requires Valid()
      ensures r == if crc32 in Contents() then Some(Contents()[crc32]) else None
    {
      var entry := first;
      ghost var k := 0;
      while entry != null
        invariant k <= |nodes| && entry == At(nodes, k)
        invariant forall i :: 0 <= i < k ==> rows[i].key != crc32
        decreases |nodes| - k
      {
        if entry.crc32 == crc32 {
          MapOfHas(rows, k);
          return Some(TextOf(entry.value));
        }
        entry := entry.next;
        k := k + 1;
      }
      MapOfMisses(rows, crc32);
      return None;
    }

    /** `HT_Find`. */
    method Find(reference: WString) returns (r: Option<WString>)
      requires Valid() && 0 in reference
      ensures r == if HashOf(reference) in Contents() then Some(Contents()[HashOf(reference)]) else None
    {
      var crc32 := CalcHash(reference);
      r := FindCrc32(crc32);
    }

    /** The last two lines of `HT_New`: the entry joins the chain exactly if `last` was the final one. */
    method Hang(entry: Entry, ghost row: Row)
      requires Valid() && nodes != [] && entry !in Allocated() && row.key !in Contents()
      requires entry.next == null && |entry.value| == HT_MAX_STR && 0 in entry.value
      requires row == Row(entry.crc32, TextOf(entry.value))
      modifies this`last, this`nodes, this`rows, this`lost, last`next
      ensures Valid() && LastIsFinal() == old(LastIsFinal())
      ensures nodes == old(nodes) + if LastIsFinal() then [entry] else []
      ensures rows == old(rows) + if LastIsFinal() then [row] else []
      ensures lost == old(lost) + (if LastIsFinal() then {} else {entry}) && last == entry
    {
      MapOfMisses(rows, row.key);
      OnlyOnce(|nodes| - 1);
      ghost var final, moreNodes, moreRows := LastIsFinal(), nodes + [entry], rows + [row];
      last.next := entry;
      last := entry;
      if final {
        rows := moreRows;
        nodes := moreNodes;
      } else {
        lost := lost + {entry};
      }
    }

    /** The first entry of an empty chain, whatever `last` was. */
    method StartChain(entry: Entry)
      requires Valid() && nodes == [] && entry !in freed && entry !in lost
      requires entry.next == null && |entry.value| == HT_MAX_STR && 0 in entry.value
      modifies this`first, this`last, this`nodes, this`rows
      ensures Valid() && LastIsFinal() && last == entry
      ensures nodes == [entry] && rows == [Row(entry.crc32, TextOf(entry.value))]
    {
      first, last := entry, entry;
      nodes, rows := [entry], [Row(entry.crc32, TextOf(entry.value))];
    }

    /** `HT_New`, for a hash that a lookup has just missed; `memory` says whether the allocation succeeds. The new entry
        can be found again exactly when `last` was the final entry, as it is in a chain without any. */
    method New(crc32: Dword, mapped: WString, memory: bool) returns (ok: bool)
      requires Valid() && Fits(mapped) && crc32 !in Contents()
      modifies this`first, this`last, this`nodes, this`rows, this`lost, (if last == null then {} else {last})`next
      ensures Valid() && ok == memory && LastIsFinal() == old(LastIsFinal())
      ensures rows == old(rows) + if ok && LastIsFinal() then [Row(crc32, TextOf(mapped))] else []
      ensures old(nodes) <= nodes && forall n <- nodes :: n in old(nodes) || fresh(n)
      ensures old(lost) <= lost && forall n <- lost :: n in old(lost) || fresh(n)
      ensures ok && !LastIsFinal() <==> lost != old(lost)
      ensures last == old(last) || fresh(last)
    {
      if !memory {
        return false;
      }
      var entry := NewEntry(crc32, mapped);
      if first == null {
        StartChain(entry);
        return true;
      }
      Hang(entry, Row(crc32, TextOf(mapped)));
      return true;
    }

    static method NewEntry(crc32: Dword, mapped: WString) returns (entry: Entry)
      requires Fits(mapped)
      ensures fresh(entry) && entry.crc32 == crc32 && entry.next == null
      ensures |entry.value| == HT_MAX_STR && 0 in entry.value && TextOf(entry.value) == TextOf(mapped)
    {
      entry := new Entry(crc32);
      entry.CopyStr(mapped);
      entry.next := null;
    }

    /** Copies a string into the entry at position `k`. */
    method Overwrite(entry: Entry, mapped: WString, ghost k: nat)
      requires Valid() && Fits(mapped) && k < |nodes| && entry == nodes[k]
      modifies this`rows, entry`value
      ensures Valid() && rows == old(rows)[k := Row(old(rows)[k].key, TextOf(mapped))]
    {
      OnlyOnce(k);
      entry.CopyStr(mapped);
      rows := rows[k := Row(rows[k].key, TextOf(mapped))];
    }

    /** The loop of `HT_Set`. */
    method SetHash(crc32: Dword, mapped: WString, memory: bool) returns (ok: bool)
      requires Valid() && Fits(mapped)
      modifies this`first, this`last, this`nodes, this`rows, this`lost, nodes, last
      ensures Valid() && LastIsFinal() == old(LastIsFinal()) && freed == old(freed)
      ensures ok == (memory || IndexOf(old(rows), crc32) < |old(rows)|)
      ensures rows == Assigned(old(rows), crc32, TextOf(mapped), memory && LastIsFinal())
      ensures old(nodes) <= nodes && forall n <- nodes :: n in old(nodes) || fresh(n)
      ensures old(lost) <= lost && forall n <- lost :: n in old(lost) || fresh(n)
      ensures LastIsFinal() ==> lost == old(lost)
      ensures last == old(last) || fresh(last)
    {
      var entry := first;
      ghost var k := 0;
      while entry != null
        invariant k <= |nodes| && entry == At(nodes, k)
        invariant forall i :: 0 <= i < k ==> rows[i].key != crc32
        decreases |nodes| - k
      {
        if entry.crc32 == crc32 {
          IndexOfIs(rows, crc32, k);
          Overwrite(entry, mapped, k);
          return true;
        }
        entry := entry.next;
        k := k + 1;
      }
      IndexOfIs(rows, crc32, k);
      MapOfMisses(rows, crc32);
      assert rows + [] == rows;
      ok := New(crc32, mapped, memory);
    }

    /** `HT_Set`. It fails only if a new entry is needed and there is no memory; a new entry can be found again exactly
        when `last` was the final entry. */
    method Set(reference: WString, mapped: WString, memory: bool) returns (ok: bool)
      requires Valid() && 0 in reference && Fits(mapped)
      modifies this`first, this`last, this`nodes, this`rows, this`lost, nodes, last
      ensures Valid() && LastIsFinal() == old(LastIsFinal()) && freed == old(freed)
      ensures ok == (memory || HashOf(reference) in old(Contents()))
      ensures Contents() ==
        if HashOf(reference) in old(Contents()) || (memory && LastIsFinal()) then
          old(Contents())[HashOf(reference) := TextOf(mapped)]
        else old(Contents())
      ensures old(nodes) <= nodes && forall n <- nodes :: n in old(nodes) || fresh(n)
      ensures old(lost) <= lost && forall n <- lost :: n in old(lost) || fresh(n)
      ensures LastIsFinal() ==> lost == old(lost)
      ensures last == old(last) || fresh(last)
    {
      ghost var before, room := rows, memory && LastIsFinal();
      var crc32 := CalcHash(reference);
      ok := SetHash(crc32, mapped, memory);
      AssignedMeans(before, crc32, TextOf(mapped), room);
    }

    method UnlinkFirst(entry: Entry)
      requires Valid() && nodes != [] && entry == nodes[0]
      modifies this`first, this`last, this`nodes, this`rows, this`freed
      ensures Valid() && nodes == Without(old(nodes), 0) && rows == Without(old(rows), 0)
      ensures freed == old(freed) + {entry}
      ensures LastIsFinal() <==> nodes == [] || old(LastIsFinal())
      ensures last == old(last) || last == null
    {
      OnlyOnce(0);
      OnlyOnce(|nodes| - 1);
      ghost var restNodes, restRows := Without(nodes, 0), Without(rows, 0);
      WithoutStaysDistinct(rows, 0);
      if last == entry {
        last, first := null, null;
      } else {
        first := entry.next;
      }
      nodes := restNodes;
      rows := restRows;
      freed := freed + {entry};
    }

    /** `repair` is what the comment above line 167 asks for: `last` becomes the entry before the one deleted. The
        statement written there does nothing. */
    method UnlinkLater(entry: Entry, prev: Entry, repair: bool, ghost k: nat)
      requires Valid() && 0 < k < |nodes| && entry == nodes[k] && prev == nodes[k - 1]
      modifies this`last, this`nodes, this`rows, this`freed, prev`next
      ensures Valid() && nodes == Without(old(nodes), k) && rows == Without(old(rows), k)
      ensures freed == old(freed) + {entry}
      ensures LastIsFinal() <==> old(LastIsFinal()) && (repair || k + 1 < |old(nodes)|)
      ensures last == old(last) || last == prev
    {
      OnlyOnce(k);
      OnlyOnce(|nodes| - 1);
      OnlyOnce(k - 1);
      ghost var restNodes, restRows := Without(nodes, k), Without(rows, k);
      WithoutStaysDistinct(rows, k);
      if last == entry {
        if repair {
          last := prev;
        }
      }
      prev.next := entry.next;
      nodes := restNodes;
      rows := restRows;
      freed := freed + {entry};
    }

    /** The loop of `HT_Delete`. */
    method DeleteHash(crc32: Dword, repair: bool) returns (found: bool)
      requires Valid()
      modifies this`first, this`last, this`nodes, this`rows, this`freed, nodes`next
      ensures Valid() && lost == old(lost)
      ensures var k := IndexOf(old(rows), crc32);
        && found == (k < |old(rows)|)
        && rows == (if found then Without(old(rows), k) else old(rows))
        && (!found ==> nodes == old(nodes) && freed == old(freed) && last == old(last))
        && (found ==> nodes == Without(old(nodes), k) && freed == old(freed) + {old(nodes)[k]})
        && (last == null || last == old(last) || last in old(nodes))
        && (found ==>
          (LastIsFinal() <==> nodes == [] || (old(LastIsFinal()) && (repair || k + 1 < |old(nodes)|))))
    {
      var entry, prev := first, null;
      ghost var k := 0;
      while entry != null
        invariant k <= |nodes| && entry == At(nodes, k) && prev == (if k == 0 then null else nodes[k - 1])
        invariant forall i :: 0 <= i < k ==> rows[i].key != crc32
        decreases |nodes| - k
      {
        if entry.crc32 == crc32 {
          IndexOfIs(rows, crc32, k);
          if prev != null {
            UnlinkLater(entry, prev, repair, k);
          } else {
            UnlinkFirst(entry);
          }
          return true;
        }
        prev := entry;
        entry := entry.next;
        k := k + 1;
      }
      IndexOfIs(rows, crc32, k);
      return false;
    }

    /** `HT_Delete`: the key goes, and with it one entry, freed once. The chain stays usable for new entries exactly
        when the repair is made, or the entry deleted was not the final one, or was the only one. */
    method Delete(reference: WString, repair: bool) returns (found: bool)
      requires Valid() && 0 in reference
      modifies this`first, this`last, this`nodes, this`rows, this`freed, nodes`next
      ensures Valid() && lost == old(lost)
      ensures found == (HashOf(reference) in old(Contents()))
      ensures Contents() == old(Contents()) - {HashOf(reference)}
      ensures !found ==> nodes == old(nodes) && freed == old(freed) && last == old(last)
      ensures last == null || last == old(last) || last in old(nodes)
      ensures found ==> var k := IndexOf(old(rows), HashOf(reference));
        k < |old(nodes)| && nodes == Without(old(nodes), k) && freed == old(freed) + {old(nodes)[k]}
      ensures found ==> (LastIsFinal() <==>
        nodes == [] || (old(LastIsFinal()) && (repair || HashOf(reference) != old(rows[|rows| - 1].key))))
    {
      ghost var before := rows;
      var crc32 := CalcHash(reference);
      found := DeleteHash(crc32, repair);
      RemovedMeans(before, crc32);
    }

    /** `HT_Free`: every live entry is freed, and nothing else. */
    method Free()
      requires Valid()
      modifies this`first, this`last, this`nodes, this`rows, this`freed
      ensures Valid() && LastIsFinal() && Contents() == map[]
      ensures Live() == {} && freed == old(freed + Live()) && lost == old(lost) && first == last == null
    {
      var entry := first;
      ghost var k := 0;
      ghost var before := freed;
      while entry != null
        invariant k <= |nodes| && entry == At(nodes, k)
        invariant freed == before + set n | n in nodes[..k]
        invariant Chained() && DistinctKeys(rows) && nodes == old(nodes) && forall n <- nodes[k..] :: n !in freed
        decreases |nodes| - k
      {
        OnlyOnce(k);
        var next := entry.next;
        freed := freed + {entry};
        k := k + 1;
        entry := next;
      }
      first, last := null, null;
      nodes, rows := [], [];
    }
  }

  // ---------------------------------------------------------------- runs

  datatype Op =
    | SetOp(reference: WString, mapped: WString)
    | DeleteOp(reference: WString)
    | NewOp(reference: WString, mapped: WString)  // after a missed lookup
    | FreeOp

  predicate GoodOp(op: Op) {
    match op
    case SetOp(r, m) => 0 in r && Fits(m)
    case DeleteOp(r) => 0 in r
    case NewOp(r, m) => 0 in r && Fits(m)
    case FreeOp => true
  }

  /** The operation on the map. */
  function Apply(m: map<Dword, WString>, op: Op): map<Dword, WString> {
    match op
    case SetOp(r, s) => m[HashOf(r) := TextOf(s)]
    case DeleteOp(r) => m - {HashOf(r)}
    case NewOp(r, s) => if HashOf(r) in m then m else m[HashOf(r) := TextOf(s)]
    case FreeOp => map[]
  }

  function ApplyAll(m: map<Dword, WString>, ops: seq<Op>): map<Dword, WString>
    decreases |ops|
  {
    if ops == [] then m else ApplyAll(Apply(m, ops[0]), ops[1..])
  }

  lemma WithoutLosesOne<T>(s: seq<T>, k: nat)
    requires k < |s|
    ensures (set x | x in Without(s, k)) + {s[k]} == set x | x in s
  {
    var r := Without(s, k);
    forall x | x in s ensures x in r || x == s[k] {
      var i :| 0 <= i < |s| && s[i] == x;
      assert i < k ==> r[i] == x;
      assert i > k ==> r[i - 1] == x;
    }
  }

  method PerformDelete(t: Table, reference: WString)
    requires t.Valid() && t.LastIsFinal() && 0 in reference
    modifies t, t.nodes
    ensures t.Valid() && t.LastIsFinal() && t.lost == old(t.lost)
    ensures t.Contents() == old(t.Contents()) - {HashOf(reference)}
    ensures old(t.freed) <= t.freed && old(t.Allocated()) == t.Allocated()
    ensures t.last == null || t.last == old(t.last) || t.last in old(t.nodes)
  {
    ghost var nodes, k := t.nodes, IndexOf(t.rows, HashOf(reference));
    var found := t.Delete(reference, true);
    if found {
      WithoutLosesOne(nodes, k);
    }
  }

  method PerformNew(t: Table, reference: WString, mapped: WString)
    requires t.Valid() && t.LastIsFinal() && 0 in reference && Fits(mapped)
    modifies t, t.last
    ensures t.Valid() && t.LastIsFinal() && t.lost == old(t.lost) && t.freed == old(t.freed)
    ensures t.Contents() == Apply(old(t.Contents()), NewOp(reference, mapped))
    ensures old(t.nodes) <= t.nodes && forall n <- t.nodes :: n in old(t.nodes) || fresh(n)
    ensures t.last == old(t.last) || fresh(t.last)
  {
    var hash := CalcHash(reference);
    var hit := t.FindCrc32(hash);
    if hit.None? {
      MapOfAppend(t.rows, Row(hash, TextOf(mapped)));
      var ok := t.New(hash, mapped, true);
    }
  }

  /** One operation on a table whose `HT_Delete` repairs `last`, with memory to spare: it does to the table what it does
      to the map, it loses nothing, no entry vanishes or comes back from being freed, and every entry it touches is one
      of the table's or new. */
  method Perform(t: Table, op: Op)
    requires t.Valid() && t.LastIsFinal() && GoodOp(op)
    modifies t, t.nodes, t.last
    ensures t.Valid() && t.LastIsFinal() && t.lost == old(t.lost)
    ensures t.Contents() == Apply(old(t.Contents()), op)
    ensures old(t.freed) <= t.freed && old(t.Allocated()) <= t.Allocated()
    ensures forall n <- t.Allocated() :: n in old(t.Allocated()) || fresh(n)
    ensures t.last == null || t.last == old(t.last) || t.last in old(t.nodes) || fresh(t.last)
  {
    match op
    case SetOp(r, m) =>
      var ok := t.Set(r, m, true);
    case DeleteOp(r) => PerformDelete(t, r);
    case NewOp(r, m) => PerformNew(t, r, m);
    case FreeOp => t.Free();
  }

  /** Any sequence of operations on a new table is the same sequence on an empty map, as every lookup can tell. */
  method PerformAll(ops: seq<Op>, reference: WString) returns (t: Table, r: Option<WString>)
    requires 0 in reference && forall op <- ops :: GoodOp(op)
    ensures fresh(t) && t.Valid() && t.LastIsFinal() && t.lost == {}
    ensures t.Contents() == ApplyAll(map[], ops)
    ensures var m := ApplyAll(map[], ops);
      r == if HashOf(reference) in m then Some(m[HashOf(reference)]) else None
  {
    t := new Table();
    var i := 0;
    while i < |ops|
      invariant i <= |ops| && fresh(t) && t.Valid() && t.LastIsFinal() && t.lost == {}
      invariant (forall n <- t.Allocated() :: fresh(n)) && (t.last == null || fresh(t.last))
      invariant ApplyAll(map[], ops) == ApplyAll(t.Contents(), ops[i..])
    {
      assert ops[i..][1..] == ops[i + 1..];
      forall j | 0 <= j < |t.nodes| ensures fresh(t.nodes[j]) {
        assert t.nodes[j] in t.Allocated();
      }
      Perform(t, ops[i]);
      i := i + 1;
    }
    r := t.Find(reference);
  }

  method TwoEntries(a: Dword, b: Dword, text: WString) returns (t: Table)
    requires Fits(text) && a != b
    ensures fresh(t) && t.Valid() && t.LastIsFinal() && |t.nodes| == 2
    ensures t.rows == [Row(a, TextOf(text)), Row(b, TextOf(text))]
    ensures fresh(t.last) && fresh(t.nodes[0]) && fresh(t.nodes[1])
  {
    t := new Table();
    var ok := t.SetHash(a, text, true);
    ghost var row := Row(a, TextOf(text));
    assert t.rows == [row] && |t.nodes| == 1 && fresh(t.nodes[0]);
    ok := t.SetHash(b, text, true);
  }

  lemma OneRow(row: Row)
    ensures MapOf([row]) == map[row.key := row.text]
  {
    assert [] + [row] == [row];
    MapOfAppend([], row);
  }

  /** With line 167 as it is written, deleting the final entry of a chain of two leaves `last` outside the chain. */
  method DanglingLast(a: WString, b: WString, text: WString) returns (t: Table)
    requires 0 in a && 0 in b && Fits(text) && HashOf(a) != HashOf(b)
    ensures t.Valid() && !t.LastIsFinal() && t.Contents() == map[HashOf(a) := TextOf(text)]
  {
    var hashA := CalcHash(a);
    var hashB := CalcHash(b);
    t := TwoEntries(hashA, hashB, text);
    var found := t.DeleteHash(hashB, false);
    assert t.rows == [Row(hashA, TextOf(text))];
    OneRow(t.rows[0]);
  }

  /** And then every string filed under a new hash is lost. */
  method LostString(t: Table, c: WString, text: WString) returns (r: Option<WString>)
    requires t.Valid() && !t.LastIsFinal() && 0 in c && Fits(text) && HashOf(c) !in t.Contents()
    modifies t, t.nodes, t.last
    ensures r == None
  {
    var ok := t.Set(c, text, true);
    r := t.Find(c);
  }
}
