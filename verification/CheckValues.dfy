/** The hash of a known text, and what telling texts apart means for the identifiers of players and games. */
module CheckValues {
  import opened Words
  import opened Crc32Table
  import opened Crc32
  import opened Identity

  // ---------------------------------------------------------------- a known text

  lemma Inverted()
    ensures Xor(0xFFFFFFFF, 0xFFFFFFFF) == 0 && Xor(0x77B44F14, 0xFFFFFFFF) == 0x884BB0EB
  {
  }

  lemma OneLetter(c: bv8)
    requires Promote(c) == 0x78
    ensures Crc([c]) == 0x884BB0EB
  {
    assert Xor(0xFFFFFFFF, 0x78) & 0xFF == 0x87 && Table(0x87) == 0x774BB0EB;
    assert Xor(0xFFFFFFFF >> 8, 0x774BB0EB) == 0x77B44F14;
    assert Feed(0xFFFFFFFF, [c]) == Feed(0x77B44F14, [c][1..]);
    Inverted();
  }

  // ---------------------------------------------------------------- identifiers

  function BytesOf(s: string): seq<bv8> { seq(|s|, i requires 0 <= i < |s| => ByteOf(s[i])) }

  lemma {:induction false} UpToTheEnd(bytes: seq<bv8>)
    requires 0 !in bytes
    ensures UpToZero(bytes + [0], 0) == bytes
  {
    if bytes != [] {
      assert (bytes + [0])[1..] == bytes[1..] + [0];
      UpToTheEnd(bytes[1..]);
    }
  }

  lemma IdentifyIsCrc(s: string)
    requires 0 !in BytesOf(s)
    ensures Identify(s) == Crc(BytesOf(s)) as nat
  {
    assert Terminated(s) == BytesOf(s) + [0];
    UpToTheEnd(BytesOf(s));
  }

  lemma DifferentNumbers(a: bv32, b: bv32)
    requires a != b
    ensures a as nat != b as nat
  {
    assert (a as nat) as bv32 == a;
  }

  /** Two identifiers in the lobby that are equally long, and whose bytes differ only within four next to each other,
      never get the same number. */
  lemma IdentifiersAreToldApart(a: string, b: string, p: nat, k: nat)
    requires 0 !in BytesOf(a) && 0 !in BytesOf(b) && |a| == |b| && BytesOf(a) != BytesOf(b)
    requires k <= 4 && p + k <= |a|
    requires forall i :: 0 <= i < |a| && !(p <= i < p + k) ==> ByteOf(a[i]) == ByteOf(b[i])
    ensures Identify(a) != Identify(b)
  {
    WindowIsDetected(BytesOf(a), BytesOf(b), p, k);
    DifferentNumbers(Crc(BytesOf(a)), Crc(BytesOf(b)));
    IdentifyIsCrc(a);
    IdentifyIsCrc(b);
  }

  lemma LetterX()
    ensures ByteOf('x') == 0x78 && Promote(0x78) == 0x78
  {
  }

  lemma EmptyIsZero()
    ensures Crc([]) == 0 && CrcWide([]) == 0
  {
    Inverted();
  }

  /** A known number. */
  lemma IdentityOfX()
    ensures Identify("x") == 0x884BB0EB
  {
    LetterX();
    assert BytesOf("x") == [ByteOf('x')];
    IdentifyIsCrc("x");
    OneLetter(ByteOf('x'));
  }
}
