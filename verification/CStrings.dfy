/** The parts of the C library's string handling that the scanner relies on, in the C locale. */
module CStrings {

  const NUL := '\0'

  /** The string a C function sees in a buffer: everything before the first NUL. */
  function CStr(s: string): string {
    if s == "" || s[0] == NUL then "" else [s[0]] + CStr(s[1..])
  }

  lemma {:induction false} CStrEndsAtNul(s: string)
    ensures var r := CStr(s);
      && |r| <= |s| && r == s[..|r|] && (forall i :: 0 <= i < |r| ==> r[i] != NUL)
      && (|r| < |s| ==> s[|r|] == NUL)
  {
    if s != "" && s[0] != NUL {
      CStrEndsAtNul(s[1..]);
    }
  }

  /** What `strncpy` puts into a zeroed field of `n` bytes. */
  function Copied(s: string, n: nat): (r: string)
    ensures |r| <= n
  {
    if n == 0 || s == "" || s[0] == NUL then "" else [s[0]] + Copied(s[1..], n - 1)
  }

  lemma {:induction false} CopiedIsCut(s: string, n: nat)
    ensures Copied(s, n) == if |CStr(s)| <= n then CStr(s) else CStr(s)[..n]
    decreases n
  {
    if n > 0 && s != "" && s[0] != NUL {
      CopiedIsCut(s[1..], n - 1);
    }
  }

  predicate IsSpace(c: char) {
    c == ' ' || c == '\t' || c == '\n' || c == '\U{0B}' || c == '\U{0C}' || c == '\r'
  }

  predicate IsDigit(c: char) {
    '0' <= c <= '9'
  }

  predicate IsAlnum(c: char) {
    '0' <= c <= '9' || 'a' <= c <= 'z' || 'A' <= c <= 'Z'
  }

  function LowerChar(c: char): char {
    if 'A' <= c <= 'Z' then ((c as int) + 32) as char else c
  }

  /** `strcmpi(a, b) == 0`. */
  predicate EqualNoCase(a: string, b: string) {
    |a| == |b| && forall i :: 0 <= i < |a| ==> LowerChar(a[i]) == LowerChar(b[i])
  }

  predicate AllSpace(s: string) {
    forall i :: 0 <= i < |s| ==> IsSpace(s[i])
  }

  predicate AllDigits(s: string) {
    forall i :: 0 <= i < |s| ==> IsDigit(s[i])
  }

  function DigitValue(c: char): nat
    requires IsDigit(c)
  {
    (c as int) - ('0' as int)
  }

  /** The number spelled by the digits at the front of `s`, continuing from `acc`. */
  function LeadingNat(s: string, acc: nat): nat {
    if s != "" && IsDigit(s[0]) then LeadingNat(s[1..], 10 * acc + DigitValue(s[0])) else acc
  }

  function SkipSpaces(s: string): string {
    if s != "" && IsSpace(s[0]) then SkipSpaces(s[1..]) else s
  }

  /** `atoi` and `atol` on unbounded integers. */
  function Atoi(s: string): int {
    var t := SkipSpaces(CStr(s));
    if t != "" && t[0] == '-' then 0 - LeadingNat(t[1..], 0)
    else if t != "" && t[0] == '+' then LeadingNat(t[1..], 0)
    else LeadingNat(t, 0)
  }

  function DigitChar(d: nat): (c: char)
    requires d < 10
    ensures IsDigit(c) && DigitValue(c) == d
  {
    (('0' as int) + d) as char
  }

  /** Decimal notation, as printed by "%lu". */
  function Decimal(n: nat): (s: string)
    ensures s != "" && AllDigits(s)
  {
    if n < 10 then [DigitChar(n)] else Decimal(n / 10) + [DigitChar(n % 10)]
  }

  lemma {:induction false} CStrIsWhole(s: string)
    requires NUL !in s
    ensures CStr(s) == s
  {
    if s != "" {
      CStrIsWhole(s[1..]);
    }
  }

  lemma {:induction false} CStrPadded(s: string, pad: string)
    requires pad != "" ==> pad[0] == NUL
    ensures CStr(s + pad) == CStr(s)
  {
    if s == "" {
      assert s + pad == pad;
    } else {
      assert (s + pad)[1..] == s[1..] + pad;
      CStrPadded(s[1..], pad);
    }
  }

  lemma CopiedPadded(s: string, pad: string, n: nat)
    requires pad != "" ==> pad[0] == NUL
    ensures Copied(s + pad, n) == Copied(s, n)
  {
    CStrPadded(s, pad);
    CopiedIsCut(s + pad, n);
    CopiedIsCut(s, n);
  }

  lemma {:induction false} LeadingNatAppend(s: string, d: char, acc: nat)
    requires AllDigits(s) && IsDigit(d)
    ensures LeadingNat(s + [d], acc) == 10 * LeadingNat(s, acc) + DigitValue(d)
  {
    if s == "" {
      assert s + [d] == [d];
      assert [d][1..] == "";
    } else {
      assert (s + [d])[1..] == s[1..] + [d];
      LeadingNatAppend(s[1..], d, 10 * acc + DigitValue(s[0]));
    }
  }

  lemma {:induction false} LeadingNatDecimal(n: nat)
    ensures LeadingNat(Decimal(n), 0) == n
  {
    if n < 10 {
      assert [DigitChar(n)][1..] == "";
    } else {
      LeadingNatDecimal(n / 10);
      LeadingNatAppend(Decimal(n / 10), DigitChar(n % 10), 0);
    }
  }

  /** Reading back a printed number. */
  lemma AtoiDecimal(n: nat)
    ensures Atoi(Decimal(n)) == n
  {
    var s := Decimal(n);
    assert IsDigit(s[0]);
    CStrIsWhole(s);
    LeadingNatDecimal(n);
  }

  lemma {:induction false} SpacesAreSkipped(gap: string, s: string)
    requires AllSpace(gap) && (s != "" ==> !IsSpace(s[0]))
    ensures SkipSpaces(gap + s) == s
  {
    if gap == "" {
      assert gap + s == s;
    } else {
      assert (gap + s)[1..] == gap[1..] + s;
      SpacesAreSkipped(gap[1..], s);
    }
  }

  lemma {:induction false} DigitsEnd(digits: string, rest: string, acc: nat)
    requires AllDigits(digits) && (rest != "" ==> !IsDigit(rest[0]))
    ensures LeadingNat(digits + rest, acc) == LeadingNat(digits, acc)
  {
    if digits == "" {
      assert digits + rest == rest;
    } else {
      assert (digits + rest)[1..] == digits[1..] + rest;
      DigitsEnd(digits[1..], rest, 10 * acc + DigitValue(digits[0]));
    }
  }

  /** A number after white space, with or without a sign, and whatever follows its digits. */
  lemma AtoiReads(gap: string, n: nat, rest: string)
    requires AllSpace(gap) && NUL !in rest && (rest != "" ==> !IsDigit(rest[0]))
    ensures Atoi(gap + (Decimal(n) + rest)) == n
    ensures Atoi(gap + (['+'] + (Decimal(n) + rest))) == n
    ensures Atoi(gap + (['-'] + (Decimal(n) + rest))) == 0 - n
  {
    var number := Decimal(n) + rest;
    assert IsDigit(Decimal(n)[0]) && number[0] == Decimal(n)[0];
    LeadingNatDecimal(n);
    DigitsEnd(Decimal(n), rest, 0);
    AtoiAfterSpaces(gap, number);
    AtoiAfterSpaces(gap, ['+'] + number);
    AtoiAfterSpaces(gap, ['-'] + number);
    assert (['+'] + number)[1..] == number && (['-'] + number)[1..] == number;
  }

  lemma AtoiAfterSpaces(gap: string, s: string)
    requires AllSpace(gap) && NUL !in s && s != "" && !IsSpace(s[0])
    ensures Atoi(gap + s) == if s[0] == '-' then 0 - LeadingNat(s[1..], 0)
      else if s[0] == '+' then LeadingNat(s[1..], 0) else LeadingNat(s, 0)
  {
    assert NUL !in gap + s;
    CStrIsWhole(gap + s);
    SpacesAreSkipped(gap, s);
  }

  /** A number of at most ten digits needs at most ten digits. */
  lemma {:induction false} DecimalLength(n: nat, k: nat, bound: nat)
    requires k >= 1 && bound == Power10(k) && n < bound
    ensures |Decimal(n)| <= k
  {
    if n >= 10 {
      assert Power10(1) == 10 * Power10(0);
      assert bound == 10 * Power10(k - 1);
      DecimalLength(n / 10, k - 1, Power10(k - 1));
    }
  }

  function Power10(k: nat): nat {
    if k == 0 then 1 else 10 * Power10(k - 1)
  }
}
