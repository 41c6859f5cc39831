/** `split_raw_mod_ids` (bzccscanner.c): a list of numbers separated by semicolons. */
module ModList {
  import opened CStrings

  const MAX_MODS := 32
  const MOD_ID_STRLEN := 16

  function NoMods(): seq<nat> { seq(MAX_MODS, _ => 0) }

  /** What is returned, and what the array then holds. */
  datatype Split = Split(code: int, ids: seq<nat>)

  /** The digits read so far are `digits`, and `n` numbers have been stored. A space is not skipped: the test meant for
      it asks whether a truth value is a space. */
  function SplitFrom(text: string, digits: string, n: nat, ids: seq<nat>, max: nat): (r: Split)
    requires |ids| == max && AllDigits(digits)
    ensures |r.ids| == max
  {
    if text == "" then
      if n + 1 >= max then Split(1, ids) else Split(n + 1, ids[n := LeadingNat(digits, 0)])
    else if text[0] == ';' then
      if n + 1 >= max then Split(0, ids)
      else SplitFrom(text[1..], "", n + 1, ids[n := LeadingNat(digits, 0)], max)
    else if IsDigit(text[0]) then
      if |digits| + 1 >= MOD_ID_STRLEN then Split(0, ids)
      else SplitFrom(text[1..], digits + [text[0]], n, ids, max)
    else Split(0, ids)
  }

  function SplitRaw(text: string, ids: seq<nat>): (r: Split)
    ensures |r.ids| == |ids|
  {
    SplitFrom(text, "", 0, ids, |ids|)
  }

  lemma AtoiOfDigits(digits: string)
    requires AllDigits(digits)
    ensures Atoi(digits) == LeadingNat(digits, 0)
  {
    CStrIsWhole(digits);
    if digits != "" {
      assert IsDigit(digits[0]);
    }
  }

  /** The buffer holds `digits`, and NULs after them. */
  ghost predicate Holds(buffer: array<char>, digits: string)
    reads buffer
  {
    && buffer.Length == MOD_ID_STRLEN && |digits| < MOD_ID_STRLEN && AllDigits(digits)
    && buffer[..|digits|] == digits && forall k :: |digits| <= k < MOD_ID_STRLEN ==> buffer[k] == NUL
  }

  lemma AtoiOfBuffer(buffer: array<char>, digits: string)
    requires Holds(buffer, digits)
    ensures Atoi(buffer[..]) == LeadingNat(digits, 0)
  {
    var pad := buffer[|digits|..];
    assert buffer[..] == digits + pad;
    CStrPadded(digits, pad);
    AtoiOfDigits(digits);
  }

  method SplitRawModIds(text: string, modIds: array<nat>) returns (code: int)
    requires NUL !in text
    modifies modIds
    ensures Split(code, modIds[..]) == SplitRaw(text, old(modIds[..]))
  {
    var maxMods := modIds.Length;
    var buffer := new char[MOD_ID_STRLEN](_ => NUL);
    var modIndex, len := 0, 0;
    ghost var digits := "";
    ghost var goal := SplitRaw(text, modIds[..]);
    var i := 0;
    assert text[0..] == text;
    while i < |text|
      invariant i <= |text| && len == |digits| && Holds(buffer, digits) && fresh(buffer)
      invariant modIndex < maxMods || (modIndex == 0 && maxMods == 0)
      invariant goal == SplitFrom(text[i..], digits, modIndex, modIds[..], maxMods)
    {
      assert text[i..][0] == text[i] && text[i..][1..] == text[i + 1..];
      if text[i] == ';' {
        if modIndex + 1 >= maxMods {
          return 0;
        }
        AtoiOfBuffer(buffer, digits);
        ghost var before := modIds[..];
        var id := Atoi(buffer[..]);
        modIds[modIndex] := id;
        assert modIds[..] == before[modIndex := id];
        assert goal == SplitFrom(text[i + 1..], "", modIndex + 1, modIds[..], maxMods);
        modIndex := modIndex + 1;
        forall k | 0 <= k < MOD_ID_STRLEN { buffer[k] := NUL; }
        assert modIds[..] == before[modIndex - 1 := id];
        len := 0;
        digits := "";
        i := i + 1;
        continue;
      }
      if IsDigit(text[i]) {
        if len + 1 >= MOD_ID_STRLEN {
          return 0;
        }
        ghost var stored := modIds[..];
        buffer[len] := text[i];
        assert modIds[..] == stored;
        assert goal == SplitFrom(text[i + 1..], digits + [text[i]], modIndex, modIds[..], maxMods);
        digits := digits + [text[i]];
        len := len + 1;
        i := i + 1;
        continue;
      }
      return 0;
    }
    if modIndex + 1 >= maxMods {
      return 1;
    }
    AtoiOfBuffer(buffer, digits);
    ghost var before := modIds[..];
    var id := Atoi(buffer[..]);
    modIds[modIndex] := id;
    assert modIds[..] == before[modIndex := id];
    return modIndex + 1;
  }

  // ---------------------------------------------------------------- round trip

  predicate Small(list: seq<nat>) {
    forall i :: 0 <= i < |list| ==> list[i] < 0x8000_0000
  }

  /** The decimal forms, with a semicolon between any two. */
  function Join(list: seq<nat>): string
    requires list != []
  {
    Decimal(list[0]) + if |list| == 1 then "" else [';'] + Join(list[1..])
  }

  lemma {:induction false} SplitDigits(more: string, rest: string, digits: string, n: nat, ids: seq<nat>)
    requires AllDigits(digits) && AllDigits(more) && |digits| + |more| < MOD_ID_STRLEN
    ensures SplitFrom(more + rest, digits, n, ids, |ids|) == SplitFrom(rest, digits + more, n, ids, |ids|)
    decreases |more|
  {
    if more == "" {
      assert more + rest == rest && digits + more == digits;
    } else {
      assert (more + rest)[1..] == more[1..] + rest;
      SplitDigits(more[1..], rest, digits + [more[0]], n, ids);
      assert digits + [more[0]] + more[1..] == digits + more;
    }
  }

  lemma SmallDecimal(n: nat)
    requires n < 0x8000_0000
    ensures |Decimal(n)| <= 10
  {
    assert Power10(5) == 100000 by { assert Power10(2) == 100; assert Power10(3) == 1000; }
    assert Power10(10) == 10000000000 by { assert Power10(7) == 10000000; assert Power10(8) == 100000000; }
    DecimalLength(n, 10, Power10(10));
  }

  lemma {:induction false} JoinSplits(list: seq<nat>, n: nat, ids: seq<nat>)
    requires list != [] && n + |list| < |ids| && Small(list)
    ensures SplitFrom(Join(list), "", n, ids, |ids|) == Split(n + |list|, ids[..n] + list + ids[n + |list|..])
    decreases |list|
  {
    var text := Decimal(list[0]);
    SmallDecimal(list[0]);
    LeadingNatDecimal(list[0]);
    var rest := if |list| == 1 then "" else [';'] + Join(list[1..]);
    SplitDigits(text, rest, "", n, ids);
    assert "" + text == text;
    if |list| > 1 {
      var stored := ids[n := list[0]];
      assert rest[1..] == Join(list[1..]);
      JoinSplits(list[1..], n + 1, stored);
      assert stored[..n + 1] + list[1..] + stored[n + |list|..] == ids[..n] + list + ids[n + |list|..];
    }
  }

  /** Up to 31 numbers below 2^31 come back from their list exactly, and leave the rest of the 32 slots alone. */
  lemma ModListRoundTrip(list: seq<nat>, ids: seq<nat>)
    requires |ids| == MAX_MODS && 1 <= |list| < MAX_MODS && Small(list)
    ensures SplitRaw(Join(list), ids) == Split(|list|, list + ids[|list|..])
  {
    JoinSplits(list, 0, ids);
    assert ids[..0] + list + ids[0 + |list|..] == list + ids[|list|..];
  }

  /** A list of 32 numbers is one too many: it returns 1, with all but the last stored. */
  lemma {:induction false} FullListOverflows(list: seq<nat>, n: nat, ids: seq<nat>)
    requires list != [] && n + |list| == |ids| && Small(list)
    ensures SplitFrom(Join(list), "", n, ids, |ids|) == Split(1, ids[..n] + list[..|list| - 1] + ids[|ids| - 1..])
    decreases |list|
  {
    var text := Decimal(list[0]);
    SmallDecimal(list[0]);
    LeadingNatDecimal(list[0]);
    var rest := if |list| == 1 then "" else [';'] + Join(list[1..]);
    SplitDigits(text, rest, "", n, ids);
    assert "" + text == text;
    if |list| > 1 {
      var stored := ids[n := list[0]];
      assert rest[1..] == Join(list[1..]);
      FullListOverflows(list[1..], n + 1, stored);
      assert stored[..n + 1] + list[1..][..|list| - 2] + stored[|ids| - 1..]
          == ids[..n] + list[..|list| - 1] + ids[|ids| - 1..];
    } else {
      assert ids[..n] + list[..0] + ids[|ids| - 1..] == ids;
    }
  }

  // ---------------------------------------------------------------- every text

  /** The texts between the semicolons, when `digits` has been read of the first. */
  function Runs(text: string, digits: string): (runs: seq<string>)
    ensures runs != []
  {
    if text == "" then [digits]
    else if text[0] == ';' then [digits] + Runs(text[1..], "")
    else Runs(text[1..], digits + [text[0]])
  }

  /** At most fifteen digits, or none. */
  predicate GoodRun(run: string) {
    AllDigits(run) && |run| < MOD_ID_STRLEN
  }

  predicate GoodRuns(runs: seq<string>) {
    forall i :: 0 <= i < |runs| ==> GoodRun(runs[i])
  }

  function Numbers(runs: seq<string>): (r: seq<nat>)
    ensures |r| == |runs|
  {
    if runs == [] then [] else [LeadingNat(runs[0], 0)] + Numbers(runs[1..])
  }

  /** `numbers` written into the slots from `n` on. */
  function Written(ids: seq<nat>, n: nat, numbers: seq<nat>): (r: seq<nat>)
    requires n + |numbers| <= |ids|
    ensures |r| == |ids|
  {
    ids[..n] + numbers + ids[n + |numbers|..]
  }

  lemma {:induction false} FirstRunStarts(text: string, digits: string)
    ensures digits <= Runs(text, digits)[0]
    decreases |text|
  {
    if text != "" && text[0] != ';' {
      FirstRunStarts(text[1..], digits + [text[0]]);
    }
  }

  lemma BadStartIsBad(text: string, digits: string)
    requires !GoodRun(digits)
    ensures !GoodRuns(Runs(text, digits))
  {
    FirstRunStarts(text, digits);
    var run := Runs(text, digits)[0];
    if AllDigits(run) {
      assert forall k :: 0 <= k < |digits| ==> digits[k] == run[k];
    }
    assert !GoodRun(run);
  }

  lemma GoodRunsOf(first: string, rest: seq<string>)
    ensures GoodRuns([first] + rest) <==> GoodRun(first) && GoodRuns(rest)
  {
    var all := [first] + rest;
    if GoodRuns(all) {
      assert GoodRun(all[0]);
      forall i | 0 <= i < |rest| ensures GoodRun(rest[i]) {
        assert GoodRun(all[i + 1]);
      }
    }
  }

  lemma WrittenAfterFirst(ids: seq<nat>, n: nat, first: nat, rest: seq<nat>)
    requires n + 1 + |rest| <= |ids|
    ensures Written(ids[n := first], n + 1, rest) == Written(ids, n, [first] + rest)
  {
    var stored := ids[n := first];
    assert stored[..n + 1] == ids[..n] + [first];
  }

  /** The answer for a text whose `runs` follow `n` stored numbers. */
  function CodeOf(runs: seq<string>, n: nat, max: nat): int {
    if !GoodRuns(runs) || n + |runs| > max then 0 else if n + |runs| == max then 1 else n + |runs|
  }

  lemma {:induction false} CodeFrom(text: string, digits: string, n: nat, ids: seq<nat>)
    requires GoodRun(digits) && n < |ids|
    ensures SplitFrom(text, digits, n, ids, |ids|).code == CodeOf(Runs(text, digits), n, |ids|)
    decreases |text|
  {
    if text != "" {
      if text[0] == ';' {
        var rest := Runs(text[1..], "");
        GoodRunsOf(digits, rest);
        if n + 1 < |ids| {
          CodeFrom(text[1..], "", n + 1, ids[n := LeadingNat(digits, 0)]);
        }
      } else {
        var more := digits + [text[0]];
        if GoodRun(more) {
          assert IsDigit(more[|digits|]);
          CodeFrom(text[1..], more, n, ids);
        } else {
          BadStartIsBad(text[1..], more);
        }
      }
    }
  }

  /** Which texts are accepted, and what every other one returns: 0 if a run between semicolons has a character that is
      not a digit, or more than fifteen digits, or if there are more runs than slots; 1 if there are just as many. */
  lemma SplitReturns(text: string, ids: seq<nat>)
    requires ids != []
    ensures SplitRaw(text, ids).code ==
      var runs := Runs(text, "");
      if !GoodRuns(runs) || |runs| > |ids| then 0 else if |runs| == |ids| then 1 else |runs|
  {
    CodeFrom(text, "", 0, ids);
  }

  lemma {:induction false} AcceptedFrom(text: string, digits: string, n: nat, ids: seq<nat>)
    requires GoodRun(digits) && GoodRuns(Runs(text, digits)) && n + |Runs(text, digits)| < |ids|
    ensures SplitFrom(text, digits, n, ids, |ids|).ids == Written(ids, n, Numbers(Runs(text, digits)))
    decreases |text|
  {
    if text != "" {
      if text[0] == ';' {
        var rest := Runs(text[1..], "");
        GoodRunsOf(digits, rest);
        var first := LeadingNat(digits, 0);
        AcceptedFrom(text[1..], "", n + 1, ids[n := first]);
        WrittenAfterFirst(ids, n, first, Numbers(rest));
        assert ([digits] + rest)[1..] == rest;
      } else {
        var more := digits + [text[0]];
        if GoodRun(more) {
          assert IsDigit(more[|digits|]);
          AcceptedFrom(text[1..], more, n, ids);
        } else {
          BadStartIsBad(text[1..], more);
        }
      }
    } else {
      assert Numbers([digits]) == [LeadingNat(digits, 0)];
      assert Written(ids, n, [LeadingNat(digits, 0)]) == ids[n := LeadingNat(digits, 0)];
    }
  }

  /** An accepted text stores the numbers of all its runs, and nothing else. */
  lemma AcceptedIsStored(text: string, ids: seq<nat>)
    requires GoodRuns(Runs(text, "")) && |Runs(text, "")| < |ids|
    ensures SplitRaw(text, ids) == Split(|Runs(text, "")|, Written(ids, 0, Numbers(Runs(text, ""))))
  {
    CodeFrom(text, "", 0, ids);
    AcceptedFrom(text, "", 0, ids);
  }

  /** A space after a semicolon is not skipped: the list is rejected. */
  lemma SpaceIsRejected()
    ensures SplitRaw("1; 2", NoMods()).code == 0
  {
    SplitReturns("1; 2", NoMods());
    assert "1; 2"[1..] == "; 2" && "; 2"[1..] == " 2" && " 2"[1..] == "2" && "2"[1..] == "";
    assert "" + ['1'] == "1" && "" + [' '] == " ";
    assert Runs("1; 2", "") == Runs("; 2", "1") == ["1"] + Runs(" 2", "");
    FirstRunStarts("2", " ");
    var run := Runs(" 2", "")[0];
    assert run[0] == ' ' && !GoodRun(run);
    assert Runs("1; 2", "")[1] == run;
  }

  // ---------------------------------------------------------------- one list after another

  /** What a text stores, whatever the slots held: the first so many slots get these numbers. */
  function Stored(text: string, digits: string, n: nat, max: nat): (r: seq<nat>)
    requires AllDigits(digits)
    ensures n <= max ==> n + |r| <= max
  {
    if text == "" then if n + 1 >= max then [] else [LeadingNat(digits, 0)]
    else if text[0] == ';' then
      if n + 1 >= max then [] else [LeadingNat(digits, 0)] + Stored(text[1..], "", n + 1, max)
    else if IsDigit(text[0]) && |digits| + 1 < MOD_ID_STRLEN then Stored(text[1..], digits + [text[0]], n, max)
    else []
  }

  lemma {:induction false} StoresFrom(text: string, digits: string, n: nat, ids: seq<nat>)
    requires AllDigits(digits) && n <= |ids|
    ensures SplitFrom(text, digits, n, ids, |ids|).ids == Written(ids, n, Stored(text, digits, n, |ids|))
    decreases |text|
  {
    var first := LeadingNat(digits, 0);
    if text == "" {
      if n + 1 < |ids| {
        assert Written(ids, n, [first]) == ids[n := first];
      } else {
        assert Written(ids, n, []) == ids;
      }
    } else if text[0] == ';' && n + 1 < |ids| {
      StoresFrom(text[1..], "", n + 1, ids[n := first]);
      WrittenAfterFirst(ids, n, first, Stored(text[1..], "", n + 1, |ids|));
    } else if IsDigit(text[0]) && |digits| + 1 < MOD_ID_STRLEN {
      StoresFrom(text[1..], digits + [text[0]], n, ids);
    } else {
      assert Written(ids, n, []) == ids;
    }
  }

  /** A list over what the slots held is the list alone exactly if all slots beyond what it stores were zero. */
  lemma AloneIff(text: string, ids: seq<nat>)
    requires |ids| == MAX_MODS
    ensures SplitRaw(text, ids).ids == SplitRaw(text, NoMods()).ids <==>
      forall i :: |Stored(text, "", 0, MAX_MODS)| <= i < MAX_MODS ==> ids[i] == 0
  {
    var numbers := Stored(text, "", 0, MAX_MODS);
    StoresFrom(text, "", 0, ids);
    StoresFrom(text, "", 0, NoMods());
    var a, b := Written(ids, 0, numbers), Written(NoMods(), 0, numbers);
    assert forall i :: |numbers| <= i < MAX_MODS ==> a[i] == ids[i] && b[i] == 0;
    assert forall i :: 0 <= i < |numbers| ==> a[i] == b[i];
  }

  /** Two lists in turn leave the second alone exactly if the first holds only zeros where the second has ended. */
  lemma SecondListAloneIff(first: seq<nat>, second: seq<nat>)
    requires 1 <= |first| < MAX_MODS && Small(first) && 1 <= |second| < MAX_MODS && Small(second)
    ensures SplitRaw(Join(second), SplitRaw(Join(first), NoMods()).ids).ids == second + NoMods()[|second|..] <==>
      forall i :: |second| <= i < |first| ==> first[i] == 0
  {
    ModListRoundTrip(first, NoMods());
    var ids := first + NoMods()[|first|..];
    ModListRoundTrip(second, ids);
    var both := second + ids[|second|..];
    assert forall i :: |second| <= i < MAX_MODS ==> both[i] == ids[i];
    assert forall i :: |first| <= i < MAX_MODS ==> ids[i] == 0;
    if both == second + NoMods()[|second|..] {
      forall i | |second| <= i < |first| ensures first[i] == 0 {
        assert both[i] == first[i];
      }
    }
  }

  /** "1;2" and then "3" leaves 3 and 2. */
  lemma OldIdsStay()
    ensures SplitRaw("3", SplitRaw("1;2", NoMods()).ids).ids == [3, 2] + NoMods()[2..]
  {
    assert Decimal(1) == "1" && Decimal(2) == "2" && Decimal(3) == "3";
    assert [1, 2][1..] == [2] && Join([2]) == "2" + "" == "2" && Join([3]) == "3" + "" == "3";
    assert Join([1, 2]) == "1" + ([';'] + Join([2])) == "1;2";
    ModListRoundTrip([1, 2], NoMods());
    var ids := [1, 2] + NoMods()[2..];
    ModListRoundTrip([3], ids);
    assert [3] + ids[1..] == [3, 2] + NoMods()[2..];
  }
}
