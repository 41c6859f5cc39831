/** The limits of the scanner's tables, as numbers. */
module Limits {
  import opened ParserSpec
  import ModList
  import opened SessionTable
  import HashTable
  import NickCache

  /** A data callback is answered with a stop if the user has asked for one, from the 129th server and the seventeenth
      player on, and when an index skips one. */
  lemma RefusedIff(lib: Library, t: Table, r: Record, go: bool)
    requires GoodTable(t)
    ensures Consume(lib, t, r, go).stop <==>
      || !go || r.server >= 128 || r.player >= 16 || r.server > t.servers
      || (r.isPlayer && r.player > if r.server == t.servers then 0 else t.players)
    ensures !go || r.server >= 128 || r.player >= 16 || r.server > t.servers ==> Consume(lib, t, r, go).table == t
  {
  }

  /** A mod list has 32 slots, and a number in it at most fifteen digits. */
  lemma ModLimits(run: string)
    ensures |ModList.NoMods()| == 32 && (forall i :: 0 <= i < 32 ==> ModList.NoMods()[i] == 0)
    ensures ModList.GoodRun(run) <==> |run| <= 15 && forall i :: 0 <= i < |run| ==> '0' <= run[i] <= '9'
  {
  }

  predicate IsLetterOrDigit(c: HashTable.Tchar) {
    || ('0' as HashTable.Tchar <= c <= '9' as HashTable.Tchar)
    || ('A' as HashTable.Tchar <= c <= 'Z' as HashTable.Tchar)
    || ('a' as HashTable.Tchar <= c <= 'z' as HashTable.Tchar)
  }

  /** A nickname can be given to a player whose identifier is at most 32 letters and digits. */
  lemma ValidIdIff(id: HashTable.WString)
    ensures NickCache.ValidId(id) <==> |id| <= 32 && forall c <- id :: IsLetterOrDigit(c)
  {
    assert forall c <- id :: IsLetterOrDigit(c) <==> NickCache.IsAlnum(c);
  }

  lemma NickLength(s: HashTable.WString)
    ensures NickCache.IsNick(s) <==> |s| <= 63 && 0 !in s
  {
  }
}
