/** Whom `player_count` covers (bzccscanner.c): the first slots, whoever sits in them. */
module CountedRoster {
  import opened Document
  import opened SessionTable
  import opened Notifications
  import opened DirectReading

  /** For each player that reports something, whether the last member is a bare value. */
  function ItemEnds(items: Items): seq<bool>
    requires PlayerItems(items)
  {
    if items.NoItem? then []
    else
      (if items.val.members.Member? then [EndsWithWord(items.val.members)] else []) + ItemEnds(items.rest)
  }

  /** The same for all players of a server, in document order. */
  function RosterEnds(m: Members): seq<bool>
    requires ServerMembers(m)
  {
    if m.NoMember? then [] else (if m.val.Arr? then ItemEnds(m.val.items) else []) + RosterEnds(m.rest)
  }

  function Trues(s: seq<bool>): (n: nat)
    ensures n <= |s|
  {
    if s == [] then 0 else (if s[0] then 1 else 0) + Trues(s[1..])
  }

  lemma {:induction false} TruesConcat(a: seq<bool>, b: seq<bool>)
    ensures Trues(a + b) == Trues(a) + Trues(b)
  {
    if a == [] {
      assert a + b == b;
    } else {
      assert (a + b)[1..] == a[1..] + b;
      TruesConcat(a[1..], b);
    }
  }

  lemma {:induction false} ItemEndsAreCounted(lib: Library, items: Items)
    requires PlayerItems(items)
    ensures |ItemEnds(items)| == |ReadPlayers(lib, items)| && Trues(ItemEnds(items)) == CountLasts(items)
  {
    if items.Item? {
      var m := items.val.members;
      var first := if m.Member? then [EndsWithWord(m)] else [];
      ItemEndsAreCounted(lib, items.rest);
      TruesConcat(first, ItemEnds(items.rest));
      assert m.Member? ==> first[1..] == [];
    }
  }

  lemma {:induction false} EndsAreCounted(lib: Library, m: Members)
    requires ServerMembers(m)
    ensures |RosterEnds(m)| == |Roster(lib, m)| && Trues(RosterEnds(m)) == RosterLasts(m)
  {
    if m.Member? {
      var first := if m.val.Arr? then ItemEnds(m.val.items) else [];
      if m.val.Arr? {
        ItemEndsAreCounted(lib, m.val.items);
      }
      EndsAreCounted(lib, m.rest);
      TruesConcat(first, RosterEnds(m.rest));
    }
  }

  /** None that holds comes after one that does not. */
  predicate TruesFirst(s: seq<bool>) {
    forall i, j :: 0 <= i < j < |s| && s[j] ==> s[i]
  }

  lemma {:induction false} TruesFirstIff(s: seq<bool>)
    ensures TruesFirst(s) <==> forall i :: 0 <= i < |s| ==> (i < Trues(s) <==> s[i])
    decreases |s|
  {
    if s != [] {
      var rest, n := s[1..], Trues(s);
      TruesFirstIff(rest);
      if TruesFirst(s) {
        assert TruesFirst(rest) by {
          forall i, j | 0 <= i < j < |rest| && rest[j] ensures rest[i] {
            assert s[j + 1] && s[i + 1];
          }
        }
        forall i | 0 <= i < |s| ensures i < n <==> s[i] {
          if s[0] {
            assert i > 0 ==> (i - 1 < Trues(rest) <==> rest[i - 1]);
          } else {
            assert !s[i];
            NoTrues(rest);
          }
        }
      }
    }
  }

  lemma {:induction false} NoTrues(s: seq<bool>)
    ensures (forall i :: 0 <= i < |s| ==> !s[i]) ==> Trues(s) == 0
  {
    if s != [] {
      NoTrues(s[1..]);
    }
  }

  /** The players whose last member is a bare value, in document order. */
  function Selected<T>(s: seq<T>, ends: seq<bool>): seq<T>
    requires |s| == |ends|
  {
    if s == [] then [] else (if ends[0] then [s[0]] else []) + Selected(s[1..], ends[1..])
  }

  lemma {:induction false} FirstAreSelected<T>(s: seq<T>, ends: seq<bool>, n: nat)
    requires |s| == |ends| && n <= |s| && forall i :: 0 <= i < |s| ==> (i < n <==> ends[i])
    ensures Selected(s, ends) == s[..n]
    decreases |s|
  {
    if s != [] {
      FirstAreSelected(s[1..], ends[1..], if n == 0 then 0 else n - 1);
    }
  }

  /** A server counts exactly its players that end with a bare value, if and only if none of them comes after a player
      that reports something and does not. Then these are the players shown, compared and announced. */
  lemma CountedAreTheClosedIff(lib: Library, m: Members)
    requires ServerMembers(m) && |Roster(lib, m)| <= MAX_PLAYERS
    ensures var ends, g := RosterEnds(m), ReadServer(lib, m);
      && |ends| == |Roster(lib, m)| && Counted(g) <= |ends| && CountedPlayers(g) == Roster(lib, m)[..Counted(g)]
      && (TruesFirst(ends) <==> forall i :: 0 <= i < |ends| ==> (i < Counted(g) <==> ends[i]))
      && (TruesFirst(ends) ==> CountedPlayers(g) == Selected(Roster(lib, m), ends))
  {
    var ends := RosterEnds(m);
    EndsAreCounted(lib, m);
    TruesFirstIff(ends);
    if TruesFirst(ends) {
      FirstAreSelected(Roster(lib, m), ends, Trues(ends));
    }
  }

  // ---------------------------------------------------------------- the wrong player

  const QUOTED_PLAYER: Members := Member("", "i", "", "", Text("A"), "", NoMember)

  const BARE_PLAYER: Members := Member("", "i", "", "", Word("B"), "", NoMember)

  /** A player that ends with a quoted value, and then one that ends with a bare one. */
  const TWO_PLAYERS: Items :=
    Item("", Obj("", QUOTED_PLAYER), "", Item("", Obj("", BARE_PLAYER), "", NoItem))

  const TWO_PLAYER_SERVER: Members := Member("", "pl", "", "", Arr("", TWO_PLAYERS), "", NoMember)

  lemma TwoPlayersAreRead(lib: Library)
    ensures PlayerItems(TWO_PLAYERS) && PlayerItems(TWO_PLAYERS.rest)
    ensures ReadPlayers(lib, TWO_PLAYERS) == [ReadPlayer(lib, QUOTED_PLAYER), ReadPlayer(lib, BARE_PLAYER)]
    ensures CountLasts(TWO_PLAYERS) == 1
  {
    var rest := TWO_PLAYERS.rest;
    assert ReadPlayers(lib, rest) == [ReadPlayer(lib, BARE_PLAYER)] + ReadPlayers(lib, rest.rest);
    assert CountLasts(rest) == 1;
  }

  /** The one that ends with LAST is counted, but the other is the one covered. */
  lemma WrongPlayerIsCounted(lib: Library)
    ensures ServerMembers(TWO_PLAYER_SERVER) && |Roster(lib, TWO_PLAYER_SERVER)| == 2
    ensures EndsWithWord(BARE_PLAYER) && !EndsWithWord(QUOTED_PLAYER)
    ensures CountedPlayers(ReadServer(lib, TWO_PLAYER_SERVER)) == [ReadPlayer(lib, QUOTED_PLAYER)]
  {
    var m := TWO_PLAYER_SERVER;
    TwoPlayersAreRead(lib);
    assert Roster(lib, m.rest) == [] && RosterLasts(m.rest) == 0;
    assert Roster(lib, m) == ReadPlayers(lib, TWO_PLAYERS) && RosterLasts(m) == 1;
  }
}
