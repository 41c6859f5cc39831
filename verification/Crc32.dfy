/** `CRC32_TABLE`, `CalcCRC32` and `CalcCRC32A` (bzcchtable.c). The table is the one for the most significant bit first,
    but the loop shifts right, so this is not the CRC-32 of section 8 of RFC 1952; everything here is about the code's
    own function. */
module Crc32Table {

  /** Entries 0x00 to 0x0F. */
  function Row0(i: bv32): bv32 {
    if i == 0x00 then 0x00000000
    else if i == 0x01 then 0x04C11DB7
    else if i == 0x02 then 0x09823B6E
    else if i == 0x03 then 0x0D4326D9
    else if i == 0x04 then 0x130476DC
    else if i == 0x05 then 0x17C56B6B
    else if i == 0x06 then 0x1A864DB2
    else if i == 0x07 then 0x1E475005
    else if i == 0x08 then 0x2608EDB8
    else if i == 0x09 then 0x22C9F00F
    else if i == 0x0A then 0x2F8AD6D6
    else if i == 0x0B then 0x2B4BCB61
    else if i == 0x0C then 0x350C9B64
    else if i == 0x0D then 0x31CD86D3
    else if i == 0x0E then 0x3C8EA00A
    else 0x384FBDBD
  }

  /** Entries 0x10 to 0x1F. */
  function Row1(i: bv32): bv32 {
    if i == 0x10 then 0x4C11DB70
    else if i == 0x11 then 0x48D0C6C7
    else if i == 0x12 then 0x4593E01E
    else if i == 0x13 then 0x4152FDA9
    else if i == 0x14 then 0x5F15ADAC
    else if i == 0x15 then 0x5BD4B01B
    else if i == 0x16 then 0x569796C2
    else if i == 0x17 then 0x52568B75
    else if i == 0x18 then 0x6A1936C8
    else if i == 0x19 then 0x6ED82B7F
    else if i == 0x1A then 0x639B0DA6
    else if i == 0x1B then 0x675A1011
    else if i == 0x1C then 0x791D4014
    else if i == 0x1D then 0x7DDC5DA3
    else if i == 0x1E then 0x709F7B7A
    else 0x745E66CD
  }

  /** Entries 0x20 to 0x2F. */
  function Row2(i: bv32): bv32 {
    if i == 0x20 then 0x9823B6E0
    else if i == 0x21 then 0x9CE2AB57
    else if i == 0x22 then 0x91A18D8E
    else if i == 0x23 then 0x95609039
    else if i == 0x24 then 0x8B27C03C
    else if i == 0x25 then 0x8FE6DD8B
    else if i == 0x26 then 0x82A5FB52
    else if i == 0x27 then 0x8664E6E5
    else if i == 0x28 then 0xBE2B5B58
    else if i == 0x29 then 0xBAEA46EF
    else if i == 0x2A then 0xB7A96036
    else if i == 0x2B then 0xB3687D81
    else if i == 0x2C then 0xAD2F2D84
    else if i == 0x2D then 0xA9EE3033
    else if i == 0x2E then 0xA4AD16EA
    else 0xA06C0B5D
  }

  /** Entries 0x30 to 0x3F. */
  function Row3(i: bv32): bv32 {
    if i == 0x30 then 0xD4326D90
    else if i == 0x31 then 0xD0F37027
    else if i == 0x32 then 0xDDB056FE
    else if i == 0x33 then 0xD9714B49
    else if i == 0x34 then 0xC7361B4C
    else if i == 0x35 then 0xC3F706FB
    else if i == 0x36 then 0xCEB42022
    else if i == 0x37 then 0xCA753D95
    else if i == 0x38 then 0xF23A8028
    else if i == 0x39 then 0xF6FB9D9F
    else if i == 0x3A then 0xFBB8BB46
    else if i == 0x3B then 0xFF79A6F1
    else if i == 0x3C then 0xE13EF6F4
    else if i == 0x3D then 0xE5FFEB43
    else if i == 0x3E then 0xE8BCCD9A
    else 0xEC7DD02D
  }

  /** Entries 0x40 to 0x4F. */
  function Row4(i: bv32): bv32 {
    if i == 0x40 then 0x34867077
    else if i == 0x41 then 0x30476DC0
    else if i == 0x42 then 0x3D044B19
    else if i == 0x43 then 0x39C556AE
    else if i == 0x44 then 0x278206AB
    else if i == 0x45 then 0x23431B1C
    else if i == 0x46 then 0x2E003DC5
    else if i == 0x47 then 0x2AC12072
    else if i == 0x48 then 0x128E9DCF
    else if i == 0x49 then 0x164F8078
    else if i == 0x4A then 0x1B0CA6A1
    else if i == 0x4B then 0x1FCDBB16
    else if i == 0x4C then 0x018AEB13
    else if i == 0x4D then 0x054BF6A4
    else if i == 0x4E then 0x0808D07D
    else 0x0CC9CDCA
  }

  /** Entries 0x50 to 0x5F. */
  function Row5(i: bv32): bv32 {
    if i == 0x50 then 0x7897AB07
    else if i == 0x51 then 0x7C56B6B0
    else if i == 0x52 then 0x71159069
    else if i == 0x53 then 0x75D48DDE
    else if i == 0x54 then 0x6B93DDDB
    else if i == 0x55 then 0x6F52C06C
    else if i == 0x56 then 0x6211E6B5
    else if i == 0x57 then 0x66D0FB02
    else if i == 0x58 then 0x5E9F46BF
    else if i == 0x59 then 0x5A5E5B08
    else if i == 0x5A then 0x571D7DD1
    else if i == 0x5B then 0x53DC6066
    else if i == 0x5C then 0x4D9B3063
    else if i == 0x5D then 0x495A2DD4
    else if i == 0x5E then 0x44190B0D
    else 0x40D816BA
  }

  /** Entries 0x60 to 0x6F. */
  function Row6(i: bv32): bv32 {
    if i == 0x60 then 0xACA5C697
    else if i == 0x61 then 0xA864DB20
    else if i == 0x62 then 0xA527FDF9
    else if i == 0x63 then 0xA1E6E04E
    else if i == 0x64 then 0xBFA1B04B
    else if i == 0x65 then 0xBB60ADFC
    else if i == 0x66 then 0xB6238B25
    else if i == 0x67 then 0xB2E29692
    else if i == 0x68 then 0x8AAD2B2F
    else if i == 0x69 then 0x8E6C3698
    else if i == 0x6A then 0x832F1041
    else if i == 0x6B then 0x87EE0DF6
    else if i == 0x6C then 0x99A95DF3
    else if i == 0x6D then 0x9D684044
    else if i == 0x6E then 0x902B669D
    else 0x94EA7B2A
  }

  /** Entries 0x70 to 0x7F. */
  function Row7(i: bv32): bv32 {
    if i == 0x70 then 0xE0B41DE7
    else if i == 0x71 then 0xE4750050
    else if i == 0x72 then 0xE9362689
    else if i == 0x73 then 0xEDF73B3E
    else if i == 0x74 then 0xF3B06B3B
    else if i == 0x75 then 0xF771768C
    else if i == 0x76 then 0xFA325055
    else if i == 0x77 then 0xFEF34DE2
    else if i == 0x78 then 0xC6BCF05F
    else if i == 0x79 then 0xC27DEDE8
    else if i == 0x7A then 0xCF3ECB31
    else if i == 0x7B then 0xCBFFD686
    else if i == 0x7C then 0xD5B88683
    else if i == 0x7D then 0xD1799B34
    else if i == 0x7E then 0xDC3ABDED
    else 0xD8FBA05A
  }

  /** Entries 0x80 to 0x8F. */
  function Row8(i: bv32): bv32 {
    if i == 0x80 then 0x690CE0EE
    else if i == 0x81 then 0x6DCDFD59
    else if i == 0x82 then 0x608EDB80
    else if i == 0x83 then 0x644FC637
    else if i == 0x84 then 0x7A089632
    else if i == 0x85 then 0x7EC98B85
    else if i == 0x86 then 0x738AAD5C
    else if i == 0x87 then 0x774BB0EB
    else if i == 0x88 then 0x4F040D56
    else if i == 0x89 then 0x4BC510E1
    else if i == 0x8A then 0x46863638
    else if i == 0x8B then 0x42472B8F
    else if i == 0x8C then 0x5C007B8A
    else if i == 0x8D then 0x58C1663D
    else if i == 0x8E then 0x558240E4
    else 0x51435D53
  }

  /** Entries 0x90 to 0x9F. */
  function Row9(i: bv32): bv32 {
    if i == 0x90 then 0x251D3B9E
    else if i == 0x91 then 0x21DC2629
    else if i == 0x92 then 0x2C9F00F0
    else if i == 0x93 then 0x285E1D47
    else if i == 0x94 then 0x36194D42
    else if i == 0x95 then 0x32D850F5
    else if i == 0x96 then 0x3F9B762C
    else if i == 0x97 then 0x3B5A6B9B
    else if i == 0x98 then 0x0315D626
    else if i == 0x99 then 0x07D4CB91
    else if i == 0x9A then 0x0A97ED48
    else if i == 0x9B then 0x0E56F0FF
    else if i == 0x9C then 0x1011A0FA
    else if i == 0x9D then 0x14D0BD4D
    else if i == 0x9E then 0x19939B94
    else 0x1D528623
  }

  /** Entries 0xA0 to 0xAF. */
  function RowA(i: bv32): bv32 {
    if i == 0xA0 then 0xF12F560E
    else if i == 0xA1 then 0xF5EE4BB9
    else if i == 0xA2 then 0xF8AD6D60
    else if i == 0xA3 then 0xFC6C70D7
    else if i == 0xA4 then 0xE22B20D2
    else if i == 0xA5 then 0xE6EA3D65
    else if i == 0xA6 then 0xEBA91BBC
    else if i == 0xA7 then 0xEF68060B
    else if i == 0xA8 then 0xD727BBB6
    else if i == 0xA9 then 0xD3E6A601
    else if i == 0xAA then 0xDEA580D8
    else if i == 0xAB then 0xDA649D6F
    else if i == 0xAC then 0xC423CD6A
    else if i == 0xAD then 0xC0E2D0DD
    else if i == 0xAE then 0xCDA1F604
    else 0xC960EBB3
  }

  /** Entries 0xB0 to 0xBF. */
  function RowB(i: bv32): bv32 {
    if i == 0xB0 then 0xBD3E8D7E
    else if i == 0xB1 then 0xB9FF90C9
    else if i == 0xB2 then 0xB4BCB610
    else if i == 0xB3 then 0xB07DABA7
    else if i == 0xB4 then 0xAE3AFBA2
    else if i == 0xB5 then 0xAAFBE615
    else if i == 0xB6 then 0xA7B8C0CC
    else if i == 0xB7 then 0xA379DD7B
    else if i == 0xB8 then 0x9B3660C6
    else if i == 0xB9 then 0x9FF77D71
    else if i == 0xBA then 0x92B45BA8
    else if i == 0xBB then 0x9675461F
    else if i == 0xBC then 0x8832161A
    else if i == 0xBD then 0x8CF30BAD
    else if i == 0xBE then 0x81B02D74
    else 0x857130C3
  }

  /** Entries 0xC0 to 0xCF. */
  function RowC(i: bv32): bv32 {
    if i == 0xC0 then 0x5D8A9099
    else if i == 0xC1 then 0x594B8D2E
    else if i == 0xC2 then 0x5408ABF7
    else if i == 0xC3 then 0x50C9B640
    else if i == 0xC4 then 0x4E8EE645
    else if i == 0xC5 then 0x4A4FFBF2
    else if i == 0xC6 then 0x470CDD2B
    else if i == 0xC7 then 0x43CDC09C
    else if i == 0xC8 then 0x7B827D21
    else if i == 0xC9 then 0x7F436096
    else if i == 0xCA then 0x7200464F
    else if i == 0xCB then 0x76C15BF8
    else if i == 0xCC then 0x68860BFD
    else if i == 0xCD then 0x6C47164A
    else if i == 0xCE then 0x61043093
    else 0x65C52D24
  }

  /** Entries 0xD0 to 0xDF. */
  function RowD(i: bv32): bv32 {
    if i == 0xD0 then 0x119B4BE9
    else if i == 0xD1 then 0x155A565E
    else if i == 0xD2 then 0x18197087
    else if i == 0xD3 then 0x1CD86D30
    else if i == 0xD4 then 0x029F3D35
    else if i == 0xD5 then 0x065E2082
    else if i == 0xD6 then 0x0B1D065B
    else if i == 0xD7 then 0x0FDC1BEC
    else if i == 0xD8 then 0x3793A651
    else if i == 0xD9 then 0x3352BBE6
    else if i == 0xDA then 0x3E119D3F
    else if i == 0xDB then 0x3AD08088
    else if i == 0xDC then 0x2497D08D
    else if i == 0xDD then 0x2056CD3A
    else if i == 0xDE then 0x2D15EBE3
    else 0x29D4F654
  }

  /** Entries 0xE0 to 0xEF. */
  function RowE(i: bv32): bv32 {
    if i == 0xE0 then 0xC5A92679
    else if i == 0xE1 then 0xC1683BCE
    else if i == 0xE2 then 0xCC2B1D17
    else if i == 0xE3 then 0xC8EA00A0
    else if i == 0xE4 then 0xD6AD50A5
    else if i == 0xE5 then 0xD26C4D12
    else if i == 0xE6 then 0xDF2F6BCB
    else if i == 0xE7 then 0xDBEE767C
    else if i == 0xE8 then 0xE3A1CBC1
    else if i == 0xE9 then 0xE760D676
    else if i == 0xEA then 0xEA23F0AF
    else if i == 0xEB then 0xEEE2ED18
    else if i == 0xEC then 0xF0A5BD1D
    else if i == 0xED then 0xF464A0AA
    else if i == 0xEE then 0xF9278673
    else 0xFDE69BC4
  }

  /** Entries 0xF0 to 0xFF. */
  function RowF(i: bv32): bv32 {
    if i == 0xF0 then 0x89B8FD09
    else if i == 0xF1 then 0x8D79E0BE
    else if i == 0xF2 then 0x803AC667
    else if i == 0xF3 then 0x84FBDBD0
    else if i == 0xF4 then 0x9ABC8BD5
    else if i == 0xF5 then 0x9E7D9662
    else if i == 0xF6 then 0x933EB0BB
    else if i == 0xF7 then 0x97FFAD0C
    else if i == 0xF8 then 0xAFB010B1
    else if i == 0xF9 then 0xAB710D06
    else if i == 0xFA then 0xA6322BDF
    else if i == 0xFB then 0xA2F33668
    else if i == 0xFC then 0xBCB4666D
    else if i == 0xFD then 0xB8757BDA
    else if i == 0xFE then 0xB5365D03
    else 0xB1F740B4
  }

  /** `CRC32_TABLE[i]`. */
  function Table(i: bv32): bv32 {
    if i < 0x10 then Row0(i)
    else if i < 0x20 then Row1(i)
    else if i < 0x30 then Row2(i)
    else if i < 0x40 then Row3(i)
    else if i < 0x50 then Row4(i)
    else if i < 0x60 then Row5(i)
    else if i < 0x70 then Row6(i)
    else if i < 0x80 then Row7(i)
    else if i < 0x90 then Row8(i)
    else if i < 0xA0 then Row9(i)
    else if i < 0xB0 then RowA(i)
    else if i < 0xC0 then RowB(i)
    else if i < 0xD0 then RowC(i)
    else if i < 0xE0 then RowD(i)
    else if i < 0xF0 then RowE(i)
    else RowF(i)
  }
}

/** Words of 32 bits, and one turn of the hash loop on them. */
module Words {
  import opened Crc32Table

  function Xor(x: bv32, y: bv32): bv32 { x ^ y }

  // ---------------------------------------------------------------- exclusive or

  lemma Swap(a: bv32, b: bv32, c: bv32, d: bv32)
    ensures (a ^ b) ^ (c ^ d) == (a ^ c) ^ (b ^ d)
  {
  }

  lemma XorOfXors(a: bv32, b: bv32, c: bv32, d: bv32)
    ensures Xor(Xor(a, b), Xor(c, d)) == (a ^ b) ^ (c ^ d)
  {
  }

  lemma XorSwap(a: bv32, b: bv32, c: bv32, d: bv32)
    ensures Xor(Xor(a, b), Xor(c, d)) == Xor(Xor(a, c), Xor(b, d))
  {
    calc {
      Xor(Xor(a, b), Xor(c, d));
      { XorOfXors(a, b, c, d); }
      (a ^ b) ^ (c ^ d);
      { Swap(a, b, c, d); }
      (a ^ c) ^ (b ^ d);
      { XorOfXors(a, c, b, d); }
      Xor(Xor(a, c), Xor(b, d));
    }
  }

  lemma RightXor(x: bv32, y: bv32)
    ensures Xor(x, y) >> 8 == Xor(x >> 8, y >> 8)
  {
    calc {
      Xor(x, y) >> 8;
      (x ^ y) >> 8;
      (x >> 8) ^ (y >> 8);
      Xor(x >> 8, y >> 8);
    }
  }

  lemma LeftXor(x: bv32, y: bv32)
    ensures Xor(x, y) << 24 == Xor(x << 24, y << 24)
  {
    calc {
      Xor(x, y) << 24;
      (x ^ y) << 24;
      (x << 24) ^ (y << 24);
      Xor(x << 24, y << 24);
    }
  }

  lemma XorZero(x: bv32)
    ensures Xor(x, 0) == x && Xor(0, x) == x
  {
  }

  lemma SameOrNot(x: bv32, y: bv32)
    ensures x ^ y == 0 <==> x == y
  {
  }

  lemma XorSame(x: bv32, y: bv32)
    ensures Xor(x, y) == 0 <==> x == y
  {
    SameOrNot(x, y);
  }

  lemma XorCancel(x: bv32, y: bv32, z: bv32)
    requires Xor(x, z) == Xor(y, z)
    ensures x == y
  {
  }

  /** The complements of three words differ by the complement of their difference. */
  lemma XorOfThree(x: bv32, y: bv32, z: bv32, ones: bv32)
    ensures Xor(Xor(Xor(x, ones), Xor(y, ones)), Xor(z, ones)) == Xor(Xor(Xor(x, y), z), ones)
  {
    XorSwap(x, ones, y, ones);
    XorSame(ones, ones);
    XorZero(Xor(x, y));
    XorZero(ones);
    XorSwap(Xor(x, y), 0, z, ones);
  }

  lemma XorThrice(ones: bv32)
    ensures Xor(Xor(ones, ones), ones) == ones
  {
  }

  // ---------------------------------------------------------------- the table, bit by bit

  const POLYNOMIAL: bv32 := 0x04C1_1DB7

  function ShiftBit(x: bv32): bv32 {
    if x & 0x8000_0000 != 0 then (x << 1) ^ POLYNOMIAL else x << 1
  }

  function ShiftByte(x: bv32): bv32 {
    ShiftBit(ShiftBit(ShiftBit(ShiftBit(ShiftBit(ShiftBit(ShiftBit(ShiftBit(x))))))))
  }

  lemma FirstEighth(i: bv32)
    requires i < 0x20
    ensures Table(i) == ShiftByte(i << 24)
  {
  }

  lemma SecondEighth(i: bv32)
    requires 0x20 <= i < 0x40
    ensures Table(i) == ShiftByte(i << 24)
  {
  }

  lemma ThirdEighth(i: bv32)
    requires 0x40 <= i < 0x60
    ensures Table(i) == ShiftByte(i << 24)
  {
  }

  lemma FourthEighth(i: bv32)
    requires 0x60 <= i < 0x80
    ensures Table(i) == ShiftByte(i << 24)
  {
  }

  lemma FifthEighth(i: bv32)
    requires 0x80 <= i < 0xA0
    ensures Table(i) == ShiftByte(i << 24)
  {
  }

  lemma SixthEighth(i: bv32)
    requires 0xA0 <= i < 0xC0
    ensures Table(i) == ShiftByte(i << 24)
  {
  }

  lemma SeventhEighth(i: bv32)
    requires 0xC0 <= i < 0xE0
    ensures Table(i) == ShiftByte(i << 24)
  {
  }

  lemma EighthEighth(i: bv32)
    requires 0xE0 <= i < 0x100
    ensures Table(i) == ShiftByte(i << 24)
  {
  }

  /** Every entry is its index, followed by 24 zero bits, divided by the polynomial one bit at a time. */
  lemma TableIsBitwise(i: bv32)
    requires i < 0x100
    ensures Table(i) == ShiftByte(i << 24)
  {
    if i < 0x20 {
      FirstEighth(i);
    } else if i < 0x40 {
      SecondEighth(i);
    } else if i < 0x60 {
      ThirdEighth(i);
    } else if i < 0x80 {
      FourthEighth(i);
    } else if i < 0xA0 {
      FifthEighth(i);
    } else if i < 0xC0 {
      SixthEighth(i);
    } else if i < 0xE0 {
      SeventhEighth(i);
    } else {
      EighthEighth(i);
    }
  }

  // ---------------------------------------------------------------- linearity

  function ShiftBitMasked(x: bv32, p: bv32): bv32 {
    (x << 1) ^ ((0 - (x >> 31)) & p)
  }

  lemma ShiftBitIsMasked(x: bv32)
    ensures ShiftBit(x) == ShiftBitMasked(x, POLYNOMIAL)
  {
    if x & 0x8000_0000 != 0 {
      assert x >> 31 == 1;
      assert 0 - (x >> 31) == 0xFFFF_FFFF;
    } else {
      assert x >> 31 == 0;
    }
  }

  lemma ShiftBitMaskedXor(x: bv32, y: bv32, p: bv32)
    ensures ShiftBitMasked(Xor(x, y), p) == Xor(ShiftBitMasked(x, p), ShiftBitMasked(y, p))
  {
    calc {
      ShiftBitMasked(Xor(x, y), p);
      ShiftBitMasked(x ^ y, p);
      ((x ^ y) << 1) ^ ((0 - ((x ^ y) >> 31)) & p);
      ((x << 1) ^ ((0 - (x >> 31)) & p)) ^ ((y << 1) ^ ((0 - (y >> 31)) & p));
      ShiftBitMasked(x, p) ^ ShiftBitMasked(y, p);
      Xor(ShiftBitMasked(x, p), ShiftBitMasked(y, p));
    }
  }

  lemma ShiftBitXor(x: bv32, y: bv32)
    ensures ShiftBit(Xor(x, y)) == Xor(ShiftBit(x), ShiftBit(y))
  {
    ShiftBitIsMasked(x);
    ShiftBitIsMasked(y);
    ShiftBitIsMasked(Xor(x, y));
    ShiftBitMaskedXor(x, y, POLYNOMIAL);
  }

  lemma ShiftByteXor(x: bv32, y: bv32)
    ensures ShiftByte(Xor(x, y)) == Xor(ShiftByte(x), ShiftByte(y))
  {
    var x1, y1 := ShiftBit(x), ShiftBit(y);
    var x2, y2 := ShiftBit(x1), ShiftBit(y1);
    var x3, y3 := ShiftBit(x2), ShiftBit(y2);
    var x4, y4 := ShiftBit(x3), ShiftBit(y3);
    var x5, y5 := ShiftBit(x4), ShiftBit(y4);
    var x6, y6 := ShiftBit(x5), ShiftBit(y5);
    var x7, y7 := ShiftBit(x6), ShiftBit(y6);
    ShiftBitXor(x, y);
    ShiftBitXor(x1, y1);
    ShiftBitXor(x2, y2);
    ShiftBitXor(x3, y3);
    ShiftBitXor(x4, y4);
    ShiftBitXor(x5, y5);
    ShiftBitXor(x6, y6);
    ShiftBitXor(x7, y7);
  }

  /** The loop's turn on a zero character, without the table. */
  function Turn(x: bv32): bv32 {
    Xor(x >> 8, ShiftByte(x << 24))
  }

  lemma TurnXor(x: bv32, y: bv32)
    ensures Turn(Xor(x, y)) == Xor(Turn(x), Turn(y))
  {
    ShiftByteXor(x << 24, y << 24);
    RightXor(x, y);
    LeftXor(x, y);
    XorSwap(x >> 8, ShiftByte(x << 24), y >> 8, ShiftByte(y << 24));
  }

  /** One turn of the loop, on a character already promoted to a DWORD. */
  function Step(crc: bv32, x: bv32): bv32 {
    Xor(crc >> 8, Table(Xor(crc, x) & 0xFF))
  }

  lemma LowByteLeft(crc: bv32, x: bv32)
    ensures (Xor(crc, x) & 0xFF) << 24 == Xor(crc, x & 0xFF) << 24
  {
  }

  lemma LowByteRight(crc: bv32, x: bv32)
    ensures crc >> 8 == Xor(crc, x & 0xFF) >> 8
  {
  }

  lemma LowByteIsSmall(x: bv32)
    ensures x & 0xFF < 0x100
  {
  }

  lemma StepIsTurn(crc: bv32, x: bv32)
    ensures Step(crc, x) == Turn(Xor(crc, x & 0xFF))
  {
    LowByteLeft(crc, x);
    LowByteRight(crc, x);
    LowByteIsSmall(Xor(crc, x));
    TableIsBitwise(Xor(crc, x) & 0xFF);
  }

  // ---------------------------------------------------------------- invertibility

  /** No entry but the first has a zero top byte. */
  lemma TopByteOfEntry(i: bv32)
    requires i < 0x100 && ShiftByte(i << 24) >> 24 == 0
    ensures i == 0
  {
  }

  lemma TopByteXor(x: bv32, y: bv32)
    requires x >> 24 == y >> 24
    ensures Xor(x, y) >> 24 == 0
  {
  }

  lemma IndexXor(i: bv32, j: bv32)
    requires i < 0x100 && j < 0x100
    ensures Xor(i, j) < 0x100
  {
  }

  /** The top bytes of the 256 entries are a permutation of 0..255: no two agree. */
  lemma TopBytesDiffer(i: bv32, j: bv32)
    requires i < 0x100 && j < 0x100 && Table(i) >> 24 == Table(j) >> 24
    ensures i == j
  {
    TableIsBitwise(i);
    TableIsBitwise(j);
    ShiftedTopBytesDiffer(i, j);
  }

  lemma ShiftedIndexXor(i: bv32, j: bv32)
    ensures ShiftByte(Xor(i, j) << 24) == Xor(ShiftByte(i << 24), ShiftByte(j << 24))
  {
    calc {
      ShiftByte(Xor(i, j) << 24);
      { LeftXor(i, j); }
      ShiftByte(Xor(i << 24, j << 24));
      { ShiftByteXor(i << 24, j << 24); }
      Xor(ShiftByte(i << 24), ShiftByte(j << 24));
    }
  }

  lemma TopOfXor(i: bv32, j: bv32)
    requires ShiftByte(i << 24) >> 24 == ShiftByte(j << 24) >> 24
    ensures ShiftByte(Xor(i, j) << 24) >> 24 == 0
  {
    ShiftedIndexXor(i, j);
    TopByteXor(ShiftByte(i << 24), ShiftByte(j << 24));
  }

  lemma ShiftedTopBytesDiffer(i: bv32, j: bv32)
    requires i < 0x100 && j < 0x100 && ShiftByte(i << 24) >> 24 == ShiftByte(j << 24) >> 24
    ensures i == j
  {
    TopOfXor(i, j);
    IndexXor(i, j);
    TopByteOfEntry(Xor(i, j));
    XorSame(i, j);
  }

  /** So a turn loses nothing: only zero becomes zero. */
  lemma TurnIsInvertible(x: bv32)
    ensures Turn(x) == 0 <==> x == 0
  {
    var i := x & 0xFF;
    assert i << 24 == x << 24;
    if Turn(x) == 0 {
      assert ShiftByte(x << 24) == x >> 8;
      assert (x >> 8) >> 24 == 0;
      TopByteOfEntry(i);
      assert ShiftByte(0) == 0;
    }
  }

  // ---------------------------------------------------------------- four bytes at a time

  lemma ShiftedBack(y: bv32)
    requires y < 0x100_0000
    ensures (y << 8) >> 8 == y && (y << 8) << 24 == 0
  {
  }

  lemma NothingShifted(s: bv32)
    requires s << 24 == 0
    ensures Turn(s) == s >> 8
  {
    assert ShiftByte(0) == 0;
    XorZero(s >> 8);
  }

  lemma TurnOfShifted(y: bv32)
    requires y < 0x100_0000
    ensures Turn(y << 8) == y
  {
    ShiftedBack(y);
    NothingShifted(y << 8);
  }

  /** A byte fed after a turn could have been fed, shifted, before it. */
  lemma ShiftedIn(u: bv32, y: bv32, shifted: bv32)
    requires y < 0x100_0000 && shifted == y << 8
    ensures Xor(Turn(u), y) == Turn(Xor(u, shifted))
  {
    TurnXor(u, y << 8);
    TurnOfShifted(y);
  }

  /** The word that four bytes make up, first byte lowest. */
  function WordOf(a: bv32, b: bv32, c: bv32, d: bv32): bv32 {
    Xor(Xor(Xor(a, b << 8), c << 16), d << 24)
  }

  lemma ShiftsAdd(c: bv32)
    requires c < 0x100
    ensures (c << 8) << 8 == c << 16 && (c << 16) << 8 == c << 24
    ensures c << 8 < 0x1_0000 && c << 16 < 0x100_0000
  {
  }

  lemma FeedTwo(a: bv32, b: bv32, u: bv32)
    requires b < 0x100 && u == Xor(a, b << 8)
    ensures Xor(Turn(a), b) == Turn(u)
  {
    ShiftedIn(a, b, b << 8);
  }

  lemma FeedThree(u: bv32, c: bv32, v: bv32)
    requires c < 0x100 && v == Xor(u, c << 16)
    ensures Xor(Turn(Turn(u)), c) == Turn(Turn(v))
  {
    ShiftsAdd(c);
    ShiftedIn(Turn(u), c, c << 8);
    ShiftedIn(u, c << 8, c << 16);
  }

  lemma FeedLast(v: bv32, d: bv32, w: bv32)
    requires d < 0x100 && w == Xor(v, d << 24)
    ensures Xor(Turn(Turn(Turn(v))), d) == Turn(Turn(Turn(w)))
  {
    ShiftsAdd(d);
    ShiftedIn(Turn(Turn(v)), d, d << 8);
    ShiftedIn(Turn(v), d << 8, d << 16);
    ShiftedIn(v, d << 16, d << 24);
  }

  /** Four bytes, fed from nothing, are four turns of the word they make up. */
  lemma FeedFour(a: bv32, b: bv32, c: bv32, d: bv32)
    requires a < 0x100 && b < 0x100 && c < 0x100 && d < 0x100
    ensures Turn(Xor(Turn(Xor(Turn(Xor(Turn(a), b)), c)), d)) == Turn(Turn(Turn(Turn(WordOf(a, b, c, d)))))
  {
    var u := Xor(a, b << 8);
    var v := Xor(u, c << 16);
    FeedTwo(a, b, u);
    FeedThree(u, c, v);
    FeedLast(v, d, Xor(v, d << 24));
  }

  lemma WordOfNothing(a: bv32, b: bv32, c: bv32, d: bv32)
    requires a < 0x100 && b < 0x100 && c < 0x100 && d < 0x100 && WordOf(a, b, c, d) == 0
    ensures a == 0 && b == 0 && c == 0 && d == 0
  {
  }

  /** Four bytes fed from nothing that leave nothing are all zero. */
  lemma FourBytesShow(a: bv32, b: bv32, c: bv32, d: bv32)
    requires a < 0x100 && b < 0x100 && c < 0x100 && d < 0x100
    requires Turn(Xor(Turn(Xor(Turn(Xor(Turn(a), b)), c)), d)) == 0
    ensures a == 0 && b == 0 && c == 0 && d == 0
  {
    FeedFour(a, b, c, d);
    var word := WordOf(a, b, c, d);
    TurnIsInvertible(Turn(Turn(Turn(word))));
    TurnIsInvertible(Turn(Turn(word)));
    TurnIsInvertible(Turn(word));
    TurnIsInvertible(word);
    WordOfNothing(a, b, c, d);
  }

  // ---------------------------------------------------------------- characters

  /** A `char` is signed where the program is built: promotion copies its top bit. */
  function Promote(c: bv8): bv32 {
    if c & 0x80 != 0 then (c as bv32) | 0xFFFF_FF00 else c as bv32
  }

  function Widen(c: bv8): bv32 { c as bv32 }

  lemma PromoteLowByte(c: bv8)
    ensures Promote(c) & 0xFF == Widen(c)
  {
  }

  lemma WidenXor(a: bv8, b: bv8)
    ensures Widen(a ^ b) == Xor(Widen(a), Widen(b))
  {
  }

  lemma WidenZero(a: bv8)
    ensures Widen(a) < 0x100 && (Widen(a) == 0 <==> a == 0)
  {
  }

  lemma SameByte(a: bv8, b: bv8)
    ensures a ^ b == 0 <==> a == b
  {
  }

  function LowByte(c: bv16): bv8 { (c & 0xFF) as bv8 }

  /** A wide character is unsigned. */
  function FromWide(c: bv16): bv32 { c as bv32 }

  lemma LowByteOfWide(c: bv16)
    ensures FromWide(c) & 0xFF == Widen(LowByte(c))
  {
  }

  lemma StepOnByte(crc: bv32, c: bv8)
    ensures Step(crc, Promote(c)) == Turn(Xor(crc, Widen(c)))
  {
    StepIsTurn(crc, Promote(c));
    PromoteLowByte(c);
  }

  lemma StepOnWide(crc: bv32, c: bv16)
    ensures Step(crc, FromWide(c)) == Turn(Xor(crc, Widen(LowByte(c))))
  {
    StepIsTurn(crc, FromWide(c));
    LowByteOfWide(c);
  }

  lemma TurnOfDifference(s: bv32, t: bv32, a: bv8, b: bv8)
    ensures Xor(Turn(Xor(s, Widen(a))), Turn(Xor(t, Widen(b)))) == Turn(Xor(Xor(s, t), Widen(a ^ b)))
  {
    TurnXor(Xor(s, Widen(a)), Xor(t, Widen(b)));
    XorSwap(s, Widen(a), t, Widen(b));
    WidenXor(a, b);
  }
}

module Crc32 {
  import opened Crc32Table
  import opened Words

  const ALL_ONES: bv32 := 0xFFFF_FFFF

  function Feed(crc: bv32, text: seq<bv8>): bv32
    decreases |text|
  {
    if text == [] then crc else Feed(Step(crc, Promote(text[0])), text[1..])
  }

  function FeedWide(crc: bv32, text: seq<bv16>): bv32
    decreases |text|
  {
    if text == [] then crc else FeedWide(Step(crc, FromWide(text[0])), text[1..])
  }

  /** The identifier of a narrow string, as `CalcCRC32A` computes it. */
  function Crc(text: seq<bv8>): bv32 { Xor(Feed(ALL_ONES, text), ALL_ONES) }

  /** The identifier of a wide string, as `CalcCRC32` computes it. */
  function CrcWide(text: seq<bv16>): bv32 { Xor(FeedWide(ALL_ONES, text), ALL_ONES) }

  /** One turn over a wide string, with the entry it looks up. */
  lemma FeedOne(crc: bv32, text: seq<bv16>, index: bv32, entry: bv32, next: bv32)
    requires text != [] && Xor(crc, FromWide(text[0])) & 0xFF == index && Table(index) == entry
    requires Xor(crc >> 8, entry) == next
    ensures FeedWide(crc, text) == FeedWide(next, text[1..])
  {
  }

  // ---------------------------------------------------------------- the loops

  /** The characters before the terminator. */
  function UpToZero<T(==)>(text: seq<T>, zero: T): (r: seq<T>)
    ensures |r| <= |text| && r == text[..|r|] && zero !in r
    ensures |r| < |text| ==> text[|r|] == zero
  {
    if text == [] || text[0] == zero then [] else [text[0]] + UpToZero(text[1..], zero)
  }

  method CalcCRC32A(str: seq<bv8>) returns (r: bv32)
    requires 0 in str
    ensures r == Crc(UpToZero(str, 0))
  {
    ghost var text := UpToZero(str, 0);
    var crc := ALL_ONES;
    var i := 0;
    while str[i] != 0
      invariant i <= |text| < |str|
      invariant Feed(crc, text[i..]) == Feed(ALL_ONES, text)
      decreases |text| - i
    {
      assert text[i..][1..] == text[i + 1..] && text[i] == str[i];
      var lookupIndex := Xor(crc, Promote(str[i])) & 0xFF;
      crc := Xor(crc >> 8, Table(lookupIndex));
      i := i + 1;
    }
    return Xor(crc, ALL_ONES);
  }

  method CalcCRC32(str: seq<bv16>) returns (r: bv32)
    requires 0 in str
    ensures r == CrcWide(UpToZero(str, 0))
  {
    ghost var text := UpToZero(str, 0);
    var crc := ALL_ONES;
    var i := 0;
    while str[i] != 0
      invariant i <= |text| < |str|
      invariant FeedWide(crc, text[i..]) == FeedWide(ALL_ONES, text)
      decreases |text| - i
    {
      assert text[i..][1..] == text[i + 1..] && text[i] == str[i];
      var lookupIndex := Xor(crc, FromWide(str[i])) & 0xFF;
      crc := Xor(crc >> 8, Table(lookupIndex));
      i := i + 1;
    }
    return Xor(crc, ALL_ONES);
  }

  // ---------------------------------------------------------------- the table-free form

  /** The hash without its table: one turn per byte, eight single-bit shifts per turn. */
  function BitwiseFeed(crc: bv32, text: seq<bv8>): bv32
    decreases |text|
  {
    if text == [] then crc else BitwiseFeed(Turn(Xor(crc, Widen(text[0]))), text[1..])
  }

  lemma {:induction false} FeedIsBitwise(crc: bv32, text: seq<bv8>)
    ensures Feed(crc, text) == BitwiseFeed(crc, text)
    decreases |text|
  {
    if text != [] {
      StepOnByte(crc, text[0]);
      FeedIsBitwise(Step(crc, Promote(text[0])), text[1..]);
    }
  }

  /** The table loop computes the table-free form. */
  lemma CrcIsBitwise(text: seq<bv8>)
    ensures Crc(text) == Xor(BitwiseFeed(ALL_ONES, text), ALL_ONES)
  {
    FeedIsBitwise(ALL_ONES, text);
  }

  // ---------------------------------------------------------------- affinity

  function XorBytes(a: seq<bv8>, b: seq<bv8>): (r: seq<bv8>)
    requires |a| == |b|
    ensures |r| == |a| && forall i :: 0 <= i < |a| ==> r[i] == a[i] ^ b[i]
  {
    seq(|a|, i requires 0 <= i < |a| => a[i] ^ b[i])
  }

  /** Two runs of the loop differ by the run of the difference. */
  lemma {:induction false} FeedXor(s: bv32, t: bv32, a: seq<bv8>, b: seq<bv8>)
    requires |a| == |b|
    ensures Xor(BitwiseFeed(s, a), BitwiseFeed(t, b)) == BitwiseFeed(Xor(s, t), XorBytes(a, b))
    decreases |a|
  {
    if a != [] {
      var d := XorBytes(a, b);
      TurnOfDifference(s, t, a[0], b[0]);
      FeedXor(Turn(Xor(s, Widen(a[0]))), Turn(Xor(t, Widen(b[0]))), a[1..], b[1..]);
      assert d[1..] == XorBytes(a[1..], b[1..]);
    }
  }

  /** The hash is affine over GF(2). */
  lemma CrcIsAffine(a: seq<bv8>, b: seq<bv8>, c: seq<bv8>)
    requires |a| == |b| == |c|
    ensures Xor(Xor(Crc(a), Crc(b)), Crc(c)) == Crc(XorBytes(XorBytes(a, b), c))
  {
    CrcIsBitwise(a);
    CrcIsBitwise(b);
    CrcIsBitwise(c);
    CrcIsBitwise(XorBytes(XorBytes(a, b), c));
    FeedXor(ALL_ONES, ALL_ONES, a, b);
    FeedXor(Xor(ALL_ONES, ALL_ONES), ALL_ONES, XorBytes(a, b), c);
    XorThrice(ALL_ONES);
    XorOfThree(BitwiseFeed(ALL_ONES, a), BitwiseFeed(ALL_ONES, b), BitwiseFeed(ALL_ONES, c), ALL_ONES);
  }

  // ---------------------------------------------------------------- wide and narrow

  function LowBytes(text: seq<bv16>): (r: seq<bv8>)
    ensures |r| == |text| && forall i :: 0 <= i < |text| ==> r[i] == LowByte(text[i])
  {
    seq(|text|, i requires 0 <= i < |text| => LowByte(text[i]))
  }

  lemma LowBytesTail(text: seq<bv16>)
    requires text != []
    ensures LowBytes(text)[0] == LowByte(text[0]) && LowBytes(text)[1..] == LowBytes(text[1..])
  {
  }

  lemma {:induction false} FeedWideIsBitwise(crc: bv32, text: seq<bv16>)
    ensures FeedWide(crc, text) == BitwiseFeed(crc, LowBytes(text))
    decreases |text|
  {
    if text != [] {
      StepOnWide(crc, text[0]);
      FeedWideIsBitwise(Step(crc, FromWide(text[0])), text[1..]);
      LowBytesTail(text);
    }
  }

  /** The wide hash sees only the low byte of each character, so it agrees with the narrow one on every widened byte
      string, and ignores everything else. */
  lemma WideIsNarrow(text: seq<bv16>)
    ensures CrcWide(text) == Crc(LowBytes(text))
  {
    FeedWideIsBitwise(ALL_ONES, text);
    CrcIsBitwise(LowBytes(text));
  }

  // ---------------------------------------------------------------- error detection

  function Zeros(n: nat): (r: seq<bv8>)
    ensures |r| == n && forall i :: 0 <= i < n ==> r[i] == 0
  {
    seq(n, _ => 0)
  }

  lemma {:induction false} FeedConcat(crc: bv32, a: seq<bv8>, b: seq<bv8>)
    ensures BitwiseFeed(crc, a + b) == BitwiseFeed(BitwiseFeed(crc, a), b)
    decreases |a|
  {
    if a == [] {
      assert a + b == b;
    } else {
      assert (a + b)[1..] == a[1..] + b;
      FeedConcat(Turn(Xor(crc, a[0] as bv32)), a[1..], b);
    }
  }

  /** A difference never fades: only a zero difference is zero after zero bytes. */
  lemma {:induction false} FeedZeros(crc: bv32, n: nat)
    ensures BitwiseFeed(crc, Zeros(n)) == 0 <==> crc == 0
    decreases n
  {
    if n > 0 {
      WidenZero(0);
      XorZero(crc);
      assert Zeros(n)[1..] == Zeros(n - 1);
      FeedZeros(Turn(crc), n - 1);
      TurnIsInvertible(crc);
    }
  }

  lemma BitwiseFour(w: seq<bv8>)
    requires |w| == 4
    ensures BitwiseFeed(0, w) ==
      Turn(Xor(Turn(Xor(Turn(Xor(Turn(Widen(w[0])), Widen(w[1]))), Widen(w[2]))), Widen(w[3])))
  {
    var x1 := Turn(Widen(w[0]));
    var x2 := Turn(Xor(x1, Widen(w[1])));
    var x3 := Turn(Xor(x2, Widen(w[2])));
    XorZero(Widen(w[0]));
    assert w[1..][1..] == w[2..] && w[2..][1..] == w[3..] && w[3..][1..] == [];
    assert BitwiseFeed(x3, w[3..]) == Turn(Xor(x3, Widen(w[3])));
    assert BitwiseFeed(x2, w[2..]) == BitwiseFeed(x3, w[3..]);
    assert BitwiseFeed(x1, w[1..]) == BitwiseFeed(x2, w[2..]);
  }

  lemma FourZeros(w: seq<bv8>)
    requires |w| == 4 && BitwiseFeed(0, w) == 0
    ensures w == Zeros(4)
  {
    BitwiseFour(w);
    WidenZero(w[0]);
    WidenZero(w[1]);
    WidenZero(w[2]);
    WidenZero(w[3]);
    FourBytesShow(Widen(w[0]), Widen(w[1]), Widen(w[2]), Widen(w[3]));
  }

  /** Any nonzero difference of at most four bytes leaves a trace, however many equal bytes surround it. */
  lemma WindowLeavesATrace(w: seq<bv8>, before: nat, after: nat)
    requires |w| <= 4 && w != Zeros(|w|)
    ensures BitwiseFeed(0, Zeros(before) + w + Zeros(after)) != 0
  {
    FeedConcat(0, Zeros(before) + w, Zeros(after));
    FeedConcat(0, Zeros(before), w);
    FeedZeros(0, before);
    FeedZeros(BitwiseFeed(0, w), after);
    FeedConcat(0, w, Zeros(4 - |w|));
    FeedZeros(BitwiseFeed(0, w), 4 - |w|);
    if BitwiseFeed(0, w) == 0 {
      FourZeros(w + Zeros(4 - |w|));
      forall i | 0 <= i < |w| ensures w[i] == 0 {
        assert (w + Zeros(4 - |w|))[i] == 0;
      }
      assert false;
    }
  }

  /** Any difference confined to four consecutive bytes is detected. */
  lemma WindowIsDetected(a: seq<bv8>, b: seq<bv8>, p: nat, k: nat)
    requires |a| == |b| && a != b && k <= 4 && p + k <= |a|
    requires forall i :: 0 <= i < |a| && !(p <= i < p + k) ==> a[i] == b[i]
    ensures Crc(a) != Crc(b)
  {
    var d := XorBytes(a, b);
    var w := d[p..p + k];
    forall i | 0 <= i < |a| ensures d[i] == 0 <==> a[i] == b[i] {
      SameByte(a[i], b[i]);
    }
    assert d == Zeros(p) + w + Zeros(|a| - p - k);
    var i :| 0 <= i < |a| && a[i] != b[i];
    assert w[i - p] != 0;
    WindowLeavesATrace(w, p, |a| - p - k);
    FeedXor(ALL_ONES, ALL_ONES, a, b);
    XorSame(ALL_ONES, ALL_ONES);
    XorSame(BitwiseFeed(ALL_ONES, a), BitwiseFeed(ALL_ONES, b));
    CrcIsBitwise(a);
    CrcIsBitwise(b);
    if Crc(a) == Crc(b) {
      XorCancel(BitwiseFeed(ALL_ONES, a), BitwiseFeed(ALL_ONES, b), ALL_ONES);
    }
  }
}
