/** Which keys fill which fields, in the letters that the lobby server sends (bzccscanner.h). */
module LiteralKeys {
  import opened CStrings
  import opened ModList
  import opened SessionTable
  import opened SessionScan
  import Identity

  // ---------------------------------------------------------------- spelling

  /** The key is the word, which has small letters only, in small or capital letters. */
  predicate Spells(key: string, word: string) {
    |key| == |word| && forall i :: 0 <= i < |key| ==> key[i] == word[i] || key[i] as int == word[i] as int - 32
  }

  predicate SmallLetters(word: string) {
    forall i :: 0 <= i < |word| ==> 'a' <= word[i] <= 'z'
  }

  lemma NoCaseIsSpelling(word: string, key: string)
    requires SmallLetters(word)
    ensures EqualNoCase(word, key) <==> Spells(key, word)
  {
    if |word| == |key| {
      forall i | 0 <= i < |word|
        ensures LowerChar(word[i]) == LowerChar(key[i]) <==>
          key[i] == word[i] || key[i] as int == word[i] as int - 32
      {
        OneLetter(word[i], key[i]);
      }
    }
  }

  lemma OneLetter(small: char, c: char)
    requires 'a' <= small <= 'z'
    ensures LowerChar(small) == LowerChar(c) <==> c == small || c as int == small as int - 32
  {
  }

  lemma OneWordOnly(key: string, a: string, b: string)
    requires SmallLetters(a) && SmallLetters(b) && Spells(key, a) && Spells(key, b)
    ensures a == b
  {
    assert forall i :: 0 <= i < |key| ==> a[i] == b[i];
  }

  // ---------------------------------------------------------------- the tables

  /** Where a word stands in the table of server keys. */
  function ServerPlace(w: string): nat {
    if |w| == 1 then
      if w[0] == 'n' then 0 else if w[0] == 'm' then 1 else if w[0] == 'v' then 2 else if w[0] == 't' then 9
      else if w[0] == 'h' then 14 else if w[0] == 'k' then 15 else if w[0] == 'g' then 18 else 19
    else if |w| == 2 then
      if w[0] == 'm' then if w[1] == 'u' then 4 else 10
      else if w[0] == 'g' then 5
      else if w[0] == 'p' then if w[1] == 'g' then 7 else 11
      else if w[0] == 's' then 13 else if w[0] == 't' then 16 else 17
    else if |w| == 3 then
      if w[0] == 'g' then if w[2] == 'm' then 3 else 6
      else if w[0] == 'p' then 8 else 12
    else 19
  }

  function PlayerPlace(w: string): nat {
    if |w| != 1 then 6
    else if w[0] == 'n' then 0 else if w[0] == 'i' then 1 else if w[0] == 't' then 2 else if w[0] == 'k' then 3
    else if w[0] == 's' then 4 else 5
  }

  /** An entry that is a word, at its place. */
  predicate IsEntry(table: seq<KeyToIdentifier>, place: string -> nat, i: nat) {
    i < |table| && table[i].str != "" && SmallLetters(table[i].str) && place(table[i].str) == i
  }

  lemma FirstServerEntries(i: nat)
    requires i < 10
    ensures IsEntry(SERVER_KEY_TO_ID, ServerPlace, i)
  {
    var t := SERVER_KEY_TO_ID;
    if i < 5 {
      assert t[0].str == "n" && t[1].str == "m" && t[2].str == "v" && t[3].str == "gtm" && t[4].str == "mu";
    } else {
      assert t[5].str == "gt" && t[6].str == "gtd" && t[7].str == "pg" && t[8].str == "pgm" && t[9].str == "t";
    }
  }

  lemma LastServerEntries(i: nat)
    requires 10 <= i < 19
    ensures IsEntry(SERVER_KEY_TO_ID, ServerPlace, i)
  {
    var t := SERVER_KEY_TO_ID;
    if i < 14 {
      assert t[10].str == "mm" && t[11].str == "pm" && t[12].str == "tps" && t[13].str == "si";
    } else {
      assert t[14].str == "h" && t[15].str == "k" && t[16].str == "ti" && t[17].str == "ki" && t[18].str == "g";
    }
  }

  lemma ServerEntries(i: nat)
    requires i < 19
    ensures IsEntry(SERVER_KEY_TO_ID, ServerPlace, i)
  {
    if i < 10 {
      FirstServerEntries(i);
    } else {
      LastServerEntries(i);
    }
  }

  lemma PlayerEntries(i: nat)
    requires i < 6
    ensures IsEntry(PLAYER_KEY_TO_ID, PlayerPlace, i)
  {
    var t := PLAYER_KEY_TO_ID;
    assert t[0].str == "n" && t[1].str == "i" && t[2].str == "t";
    assert t[3].str == "k" && t[4].str == "s" && t[5].str == "d";
  }

  /** A key that spells the word of an entry gets its number, wherever the entry stands. */
  lemma SpelledNumber(key: string, table: seq<KeyToIdentifier>, place: string -> nat, i: nat)
    requires IsEntry(table, place, i) && (forall j :: 0 <= j < i ==> IsEntry(table, place, j))
    requires Spells(key, table[i].str)
    ensures KeyIdentifier(key, table) == table[i].id
  {
    NoCaseIsSpelling(table[i].str, key);
    forall j | 0 <= j < i ensures table[j].str != "" && !EqualNoCase(table[j].str, key) {
      assert IsEntry(table, place, j);
      NoCaseIsSpelling(table[j].str, key);
      if Spells(key, table[j].str) {
        OneWordOnly(key, table[i].str, table[j].str);
      }
    }
    FirstSpellingDecides(key, table, i);
  }

  /** A key that spells none of the words has none. */
  lemma {:induction false} UnspelledNumber(key: string, table: seq<KeyToIdentifier>, n: nat)
    requires n < |table| && table[n].str == ""
    requires forall i :: 0 <= i < n ==> SmallLetters(table[i].str) && !Spells(key, table[i].str)
    ensures KeyIdentifier(key, table) == 0
    decreases n
  {
    if n > 0 {
      NoCaseIsSpelling(table[0].str, key);
      var rest := table[1..];
      assert forall i :: 0 <= i < n - 1 ==> rest[i] == table[i + 1];
      UnspelledNumber(key, rest, n - 1);
    }
  }

  lemma ServerNumber(key: string, i: nat)
    requires i < 19 && Spells(key, SERVER_KEY_TO_ID[i].str)
    ensures KeyIdentifier(key, SERVER_KEY_TO_ID) == SERVER_KEY_TO_ID[i].id
  {
    ServerEntries(i);
    forall j | 0 <= j < i ensures IsEntry(SERVER_KEY_TO_ID, ServerPlace, j) {
      ServerEntries(j);
    }
    SpelledNumber(key, SERVER_KEY_TO_ID, ServerPlace, i);
  }

  lemma PlayerNumber(key: string, i: nat)
    requires i < 6 && Spells(key, PLAYER_KEY_TO_ID[i].str)
    ensures KeyIdentifier(key, PLAYER_KEY_TO_ID) == PLAYER_KEY_TO_ID[i].id
  {
    PlayerEntries(i);
    forall j | 0 <= j < i ensures IsEntry(PLAYER_KEY_TO_ID, PlayerPlace, j) {
      PlayerEntries(j);
    }
    SpelledNumber(key, PLAYER_KEY_TO_ID, PlayerPlace, i);
  }

  lemma NumbersOfTexts(key: string)
    ensures var id := KeyIdentifier(key, SERVER_KEY_TO_ID);
      && (Spells(key, "n") ==> id == SERVERKEY_NAME) && (Spells(key, "m") ==> id == SERVERKEY_MAP)
      && (Spells(key, "v") ==> id == SERVERKEY_VERSION) && (Spells(key, "h") ==> id == SERVERKEY_HOSTMSG)
      && (Spells(key, "k") ==> id == SERVERKEY_PWD) && (Spells(key, "g") ==> id == SERVERKEY_G)
      && (Spells(key, "mm") ==> id == SERVERKEY_MODSTRING)
  {
    if Spells(key, "n") { ServerNumber(key, 0); }
    if Spells(key, "m") { ServerNumber(key, 1); }
    if Spells(key, "v") { ServerNumber(key, 2); }
    if Spells(key, "h") { ServerNumber(key, 14); }
    if Spells(key, "k") { ServerNumber(key, 15); }
    if Spells(key, "g") { ServerNumber(key, 18); }
    if Spells(key, "mm") { ServerNumber(key, 10); }
  }

  lemma NumbersOfNumbers(key: string)
    ensures var id := KeyIdentifier(key, SERVER_KEY_TO_ID);
      && (Spells(key, "pm") ==> id == SERVERKEY_PLAYERLIMIT) && (Spells(key, "tps") ==> id == SERVERKEY_TPS)
      && (Spells(key, "pgm") ==> id == SERVERKEY_MAX_PING) && (Spells(key, "pg") ==> id == SERVERKEY_PING)
      && (Spells(key, "gtm") ==> id == SERVERKEY_GAMETIME) && (Spells(key, "gt") ==> id == SERVERKEY_GAMETYPE)
      && (Spells(key, "ti") ==> id == SERVERKEY_TIMELIMIT) && (Spells(key, "ki") ==> id == SERVERKEY_KILLLIMIT)
  {
    if Spells(key, "pm") { ServerNumber(key, 11); }
    if Spells(key, "tps") { ServerNumber(key, 12); }
    if Spells(key, "pgm") { ServerNumber(key, 8); }
    if Spells(key, "pg") { ServerNumber(key, 7); }
    if Spells(key, "gtm") { ServerNumber(key, 3); }
    if Spells(key, "gt") { ServerNumber(key, 5); }
    if Spells(key, "ti") { ServerNumber(key, 16); }
    if Spells(key, "ki") { ServerNumber(key, 17); }
  }

  /** The other words of the table. */
  predicate FillsNothing(key: string) {
    Spells(key, "mu") || Spells(key, "gtd") || Spells(key, "t") || Spells(key, "si")
  }

  lemma NumbersOfNothing(key: string)
    requires FillsNothing(key)
    ensures KeyIdentifier(key, SERVER_KEY_TO_ID) == 0
  {
    if Spells(key, "mu") {
      ServerNumber(key, 4);
    } else if Spells(key, "gtd") {
      ServerNumber(key, 6);
    } else if Spells(key, "t") {
      ServerNumber(key, 9);
    } else {
      ServerNumber(key, 13);
    }
  }

  /** Some key that fills a field of a server. */
  predicate FillsAServer(key: string) {
    || Spells(key, "n") || Spells(key, "m") || Spells(key, "v") || Spells(key, "h") || Spells(key, "mm")
    || Spells(key, "pm") || Spells(key, "tps") || Spells(key, "k") || Spells(key, "pgm") || Spells(key, "pg")
    || Spells(key, "gtm") || Spells(key, "gt") || Spells(key, "ti") || Spells(key, "ki") || Spells(key, "g")
  }

  lemma NoWordSpelled(key: string, i: nat)
    requires i < 19 && !FillsAServer(key) && !FillsNothing(key)
    ensures !Spells(key, SERVER_KEY_TO_ID[i].str)
  {
    var t := SERVER_KEY_TO_ID;
    if i < 5 {
      assert t[0].str == "n" && t[1].str == "m" && t[2].str == "v" && t[3].str == "gtm" && t[4].str == "mu";
    } else if i < 10 {
      assert t[5].str == "gt" && t[6].str == "gtd" && t[7].str == "pg" && t[8].str == "pgm" && t[9].str == "t";
    } else if i < 14 {
      assert t[10].str == "mm" && t[11].str == "pm" && t[12].str == "tps" && t[13].str == "si";
    } else {
      assert t[14].str == "h" && t[15].str == "k" && t[16].str == "ti" && t[17].str == "ki" && t[18].str == "g";
    }
  }

  lemma OtherServerKeys(key: string)
    requires !FillsAServer(key)
    ensures KeyIdentifier(key, SERVER_KEY_TO_ID) == 0
  {
    if FillsNothing(key) {
      NumbersOfNothing(key);
    } else {
      forall i | 0 <= i < 19
        ensures SmallLetters(SERVER_KEY_TO_ID[i].str) && !Spells(key, SERVER_KEY_TO_ID[i].str)
      {
        ServerEntries(i);
        NoWordSpelled(key, i);
      }
      UnspelledNumber(key, SERVER_KEY_TO_ID, 19);
    }
  }

  lemma PlayerNumbers(key: string)
    ensures var id := KeyIdentifier(key, PLAYER_KEY_TO_ID);
      && (Spells(key, "n") ==> id == PLAYERKEY_NAME) && (Spells(key, "i") ==> id == PLAYERKEY_USERID)
      && (Spells(key, "t") ==> id == PLAYERKEY_TEAM) && (Spells(key, "k") ==> id == PLAYERKEY_KILLS)
      && (Spells(key, "s") ==> id == PLAYERKEY_SCORE) && (Spells(key, "d") ==> id == PLAYERKEY_DEATHS)
  {
    if Spells(key, "n") { PlayerNumber(key, 0); }
    if Spells(key, "i") { PlayerNumber(key, 1); }
    if Spells(key, "t") { PlayerNumber(key, 2); }
    if Spells(key, "k") { PlayerNumber(key, 3); }
    if Spells(key, "s") { PlayerNumber(key, 4); }
    if Spells(key, "d") { PlayerNumber(key, 5); }
  }

  predicate FillsAPlayer(key: string) {
    Spells(key, "n") || Spells(key, "i") || Spells(key, "t") || Spells(key, "k")
  }

  lemma OtherPlayerKeys(key: string)
    requires !FillsAPlayer(key)
    ensures var id := KeyIdentifier(key, PLAYER_KEY_TO_ID); id == 0 || id == PLAYERKEY_SCORE || id == PLAYERKEY_DEATHS
  {
    if Spells(key, "s") || Spells(key, "d") {
      PlayerNumbers(key);
    } else {
      var t := PLAYER_KEY_TO_ID;
      assert t[0].str == "n" && t[1].str == "i" && t[2].str == "t";
      assert t[3].str == "k" && t[4].str == "s" && t[5].str == "d";
      forall i | 0 <= i < 6 ensures SmallLetters(t[i].str) && !Spells(key, t[i].str) {
        PlayerEntries(i);
      }
      UnspelledNumber(key, t, 6);
    }
  }

  // ---------------------------------------------------------------- one key and its value

  /** The first `n` characters, or all if there are not so many. */
  function First(s: string, n: nat): string {
    if |s| <= n then s else s[..n]
  }

  lemma ClipIsFirst(s: string, n: nat)
    requires n > 0
    ensures Clip(s, n) == First(s, n - 1)
  {
  }

  /** What each key of a server fills, and that no other fills anything. */
  lemma ServerTexts(decode: string -> string, g: ServerInfo, key: string, v: string)
    ensures var r := SetServerField(Scanner(decode), g, key, v);
      && (Spells(key, "n") ==> r == g.(name := decode(v)))
      && (Spells(key, "m") ==> r == g.(map_ := First(v + ".bzn", 31)))
      && (Spells(key, "v") ==> r == g.(version := First(v, 15)))
      && (Spells(key, "h") ==> r == g.(msg := First(v, 255)))
      && (Spells(key, "k") ==> r == g.(pwd := true))
      && (Spells(key, "g") ==> r == g.(uniqueIdentifier := Identity.Identify(v)))
      && (Spells(key, "mm") ==> r == g.(modId := SplitRaw(v, g.modId).ids))
      && (!FillsAServer(key) ==> r == g)
  {
    NumbersOfTexts(key);
    if !FillsAServer(key) {
      OtherServerKeys(key);
    }
  }

  lemma ServerNumbers(decode: string -> string, g: ServerInfo, key: string, v: string)
    ensures var r := SetServerField(Scanner(decode), g, key, v);
      && (Spells(key, "pm") ==> r == g.(playerlimit := Atoi(v)))
      && (Spells(key, "tps") ==> r == g.(tps := Atoi(v)))
      && (Spells(key, "pgm") ==> r == g.(maxPing := Atoi(v)))
      && (Spells(key, "pg") ==> r == g.(serverPing := Atoi(v)))
      && (Spells(key, "gtm") ==> r == g.(gametime := Atoi(v)))
      && (Spells(key, "gt") ==> r == g.(gametype := Atoi(v)))
      && (Spells(key, "ti") ==> r == g.(timelimit := Atoi(v)))
      && (Spells(key, "ki") ==> r == g.(killlimit := Atoi(v)))
  {
    NumbersOfNumbers(key);
  }

  /** What each key of a player fills; in particular "s" and "d" fill nothing. */
  lemma PlayerTexts(decode: string -> string, p: PlayerInfo, key: string, v: string)
    ensures var r := SetPlayerField(Scanner(decode), p, key, v);
      && (Spells(key, "n") ==> r == p.(ingameName := decode(v)))
      && (Spells(key, "i") ==> r == p.(userId := First(v, 31), uniqueIdentifier := Identity.Identify(v)))
      && (Spells(key, "t") ==> r == p.(team := Atoi(v)))
      && (Spells(key, "k") ==> r == p.(kills := Atoi(v)))
      && (!FillsAPlayer(key) ==> r == p)
  {
    PlayerNumbers(key);
    if !FillsAPlayer(key) {
      OtherPlayerKeys(key);
    }
  }
}
