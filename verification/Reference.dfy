/**
 What fixes the CRC and the wire form of the mux frames among all that obey the same laws: reference values, and that
 the register starts with ones so that leading zero bytes are noticed.
 */
module Reference {
  import opened Crc32
  import opened CrcBurst
  import opened Mux

  // ---------- registers byte by byte ----------

  lemma EightSteps(c: bv32)
    ensures Steps(c, 8) == Step(Step(Step(Step(Step(Step(Step(Step(c))))))))
  {
    hide Step;
    FourSteps(c, 4);
    FourSteps(Step(Step(Step(Step(c)))), 0);
  }

  /** The register after one more byte, by way of its value after four steps. */
  lemma NextByte(s: seq<bv8>, n: nat, c: bv32, x: bv32, half: bv32, next: bv32)
    requires n < |s| && Register(PRESET, s[..n]) == c && x == Xor(c, s[n] as bv32)
    requires Step(Step(Step(Step(x)))) == half && Step(Step(Step(Step(half)))) == next
    ensures Register(PRESET, s[..n + 1]) == next
  {
    hide Step;
    hide Xor;
    EightSteps(x);
    assert s[..n + 1][..n] == s[..n];
  }

  lemma NothingAbsorbed(s: seq<bv8>)
    ensures Register(PRESET, s[..0]) == 0xffffffff
  {
  }

  // ---------- the reference value ----------

  /** The digits 1 to 9 in ASCII. */
  const DIGITS: seq<bv8> := [0x31, 0x32, 0x33, 0x34, 0x35, 0x36, 0x37, 0x38, 0x39]

  lemma DigitsLowNibbles()
    ensures Step(Step(Step(Step(0xffffffce)))) == 0xaff51d84
    ensures Step(Step(Step(Step(0x7c23107a)))) == 0xd11492ef
    ensures Step(Step(Step(Step(0xb0acbb01)))) == 0x16bddbd4
    ensures Step(Step(Step(Step(0x77b79c19)))) == 0xf774ea85
    ensures Step(Step(Step(Step(0x641c1f69)))) == 0xf64e52b2
    ensures Step(Step(Step(Step(0x340ac5d5)))) == 0x682bfda9
    ensures Step(Step(Step(Step(0xf68d2ca9)))) == 0xff67418e
    ensures Step(Step(Step(Step(0xaffc9658)))) == 0xe7474a45
    ensures Step(Step(Step(Step(0x651f2569)))) == 0xf65e6112
  {
  }

  lemma DigitsHighNibbles()
    ensures Step(Step(Step(Step(0xaff51d84)))) == 0x7c231048
    ensures Step(Step(Step(Step(0xd11492ef)))) == 0xb0acbb32
    ensures Step(Step(Step(Step(0x16bddbd4)))) == 0x77b79c2d
    ensures Step(Step(Step(Step(0xf774ea85)))) == 0x641c1f5c
    ensures Step(Step(Step(Step(0xf64e52b2)))) == 0x340ac5e3
    ensures Step(Step(Step(Step(0x682bfda9)))) == 0xf68d2c9e
    ensures Step(Step(Step(Step(0xff67418e)))) == 0xaffc9660
    ensures Step(Step(Step(Step(0xe7474a45)))) == 0x651f2550
    ensures Step(Step(Step(Step(0xf65e6112)))) == 0x340bc6d9
  {
  }

  lemma DigitsSums()
    ensures Xor(0xffffffff, 0x31 as bv8 as bv32) == 0xffffffce
    ensures Xor(0x7c231048, 0x32 as bv8 as bv32) == 0x7c23107a
    ensures Xor(0xb0acbb32, 0x33 as bv8 as bv32) == 0xb0acbb01
    ensures Xor(0x77b79c2d, 0x34 as bv8 as bv32) == 0x77b79c19
    ensures Xor(0x641c1f5c, 0x35 as bv8 as bv32) == 0x641c1f69
    ensures Xor(0x340ac5e3, 0x36 as bv8 as bv32) == 0x340ac5d5
    ensures Xor(0xf68d2c9e, 0x37 as bv8 as bv32) == 0xf68d2ca9
    ensures Xor(0xaffc9660, 0x38 as bv8 as bv32) == 0xaffc9658
    ensures Xor(0x651f2550, 0x39 as bv8 as bv32) == 0x651f2569
    ensures Xor(0x340bc6d9, 0xffffffff) == 0xcbf43926
  {
  }

  lemma DigitsRegister3()
    ensures Register(PRESET, DIGITS[..3]) == 0x77b79c2d
  {
    hide Xor;
    hide Step;
    hide Absorb;
    DigitsSums();
    DigitsLowNibbles();
    DigitsHighNibbles();
    NothingAbsorbed(DIGITS);
    hide Register;
    NextByte(DIGITS, 0, 0xffffffff, 0xffffffce, 0xaff51d84, 0x7c231048);
    NextByte(DIGITS, 1, 0x7c231048, 0x7c23107a, 0xd11492ef, 0xb0acbb32);
    NextByte(DIGITS, 2, 0xb0acbb32, 0xb0acbb01, 0x16bddbd4, 0x77b79c2d);
  }

  lemma DigitsRegister6()
    ensures Register(PRESET, DIGITS[..6]) == 0xf68d2c9e
  {
    hide Xor;
    hide Step;
    hide Absorb;
    DigitsSums();
    DigitsLowNibbles();
    DigitsHighNibbles();
    DigitsRegister3();
    hide Register;
    NextByte(DIGITS, 3, 0x77b79c2d, 0x77b79c19, 0xf774ea85, 0x641c1f5c);
    NextByte(DIGITS, 4, 0x641c1f5c, 0x641c1f69, 0xf64e52b2, 0x340ac5e3);
    NextByte(DIGITS, 5, 0x340ac5e3, 0x340ac5d5, 0x682bfda9, 0xf68d2c9e);
  }

  lemma DigitsRegister9()
    ensures Register(PRESET, DIGITS[..9]) == 0x340bc6d9
  {
    hide Xor;
    hide Step;
    hide Absorb;
    DigitsSums();
    DigitsLowNibbles();
    DigitsHighNibbles();
    DigitsRegister6();
    hide Register;
    NextByte(DIGITS, 6, 0xf68d2c9e, 0xf68d2ca9, 0xff67418e, 0xaffc9660);
    NextByte(DIGITS, 7, 0xaffc9660, 0xaffc9658, 0xe7474a45, 0x651f2550);
    NextByte(DIGITS, 8, 0x651f2550, 0x651f2569, 0xf65e6112, 0x340bc6d9);
  }

  /** The reference value: the CRC of the digits 1 to 9. */
  lemma ReferenceValue()
    ensures Crc(DIGITS) == 0xcbf43926
  {
    hide Xor;
    hide Register;
    DigitsRegister9();
    DigitsSums();
    assert DIGITS[..9] == DIGITS;
  }

  // ---------- leading zeros ----------

  /** A zero byte in front of a message changes its CRC. */
  lemma LeadingZeroIsNoticed(s: seq<bv8>)
    ensures Crc([0] + s) != Crc(s)
  {
    hide Absorb;
    hide Xor;
    RegisterConcat(PRESET, [0], s);
    assert [0 as bv8][..0] == [];
    ZeroMovesPreset();
    if Crc([0] + s) == Crc(s) {
      XorInjective(Register(PRESET, [0] + s), Register(PRESET, s), 0xffffffff);
      RegisterInjective(Absorb(PRESET, 0), PRESET, s);
    }
  }

  lemma ZeroMovesPreset()
    ensures Absorb(PRESET, 0) != PRESET
  {
    assert Xor(PRESET, 0 as bv8 as bv32) == 0xffffffff;
    EightSteps(0xffffffff);
    ResidueQuarters();
  }

  // ---------- one frame on the wire ----------

  /** What a frame may be: its kind from 1 to 7, a session, and at most 1024 bytes of payload. */
  lemma EncodableMeans(f: Frame)
    ensures Encodable(f) <==> 1 <= f.kind <= 7 && f.session != 0 && |f.payload| <= 1024
  {
  }

  /** The numbers of the kinds. */
  lemma KindNumbers()
    ensures [HELLO, HELLO_ACK, CONSOLE, REQUEST, RESPONSE, EVENT, ERROR] == [1, 2, 3, 4, 5, 6, 7]
  {
  }

  /** A request with both special bytes in its session. */
  const SAMPLE := Frame(REQUEST, 0x0102030405067d7e, 0x11223344, [0x41])

  const SAMPLE_HEADER: seq<bv8> :=
    [0x01, 0x04, 0x7e, 0x7d, 0x06, 0x05, 0x04, 0x03, 0x02, 0x01, 0x44, 0x33, 0x22, 0x11, 0x41]

  lemma SampleFields()
    ensures Header(SAMPLE) == SAMPLE_HEADER
  {
    assert Le64(0x0102030405067d7e) == [0x7e, 0x7d, 0x06, 0x05, 0x04, 0x03, 0x02, 0x01];
    assert Le32(0x11223344) == [0x44, 0x33, 0x22, 0x11];
  }

  lemma SampleLowNibbles()
    ensures Step(Step(Step(Step(0xfffffffe)))) == 0xaff51d87
    ensures Step(Step(Step(Step(0x5afa20e0)))) == 0x05afa20e
    ensures Step(Step(Step(Step(0xa0501826)))) == 0x47b760da
    ensures Step(Step(Step(Step(0xd2add598)))) == 0xe0925e79
    ensures Step(Step(Step(Step(0xfe06b6a5)))) == 0x648b3a9e
    ensures Step(Step(Step(Step(0xa64251d4)))) == 0x7cb8648d
    ensures Step(Step(Step(Step(0x81185498)))) == 0xe5a90669
    ensures Step(Step(Step(Step(0xfe550321)))) == 0x12524056
    ensures Step(Step(Step(Step(0x4c97455f)))) == 0xb9748649
    ensures Step(Step(Step(Step(0xfb98db21)))) == 0x120e9dd6
    ensures Step(Step(Step(Step(0x4c9288c1)))) == 0x197e38e8
    ensures Step(Step(Step(Step(0xec2f609d)))) == 0x881124dd
    ensures Step(Step(Step(Step(0x8e52c0bb)))) == 0xc3849f87
    ensures Step(Step(Step(Step(0x5c3d38d5)))) == 0x6ea88279
    ensures Step(Step(Step(Step(0xf6e51b22)))) == 0x3400717a
  {
  }

  lemma SampleHighNibbles()
    ensures Step(Step(Step(Step(0xaff51d87)))) == 0x5afa20e4
    ensures Step(Step(Step(Step(0x05afa20e)))) == 0xa0501858
    ensures Step(Step(Step(Step(0x47b760da)))) == 0xd2add5e5
    ensures Step(Step(Step(Step(0xe0925e79)))) == 0xfe06b6a3
    ensures Step(Step(Step(Step(0x648b3a9e)))) == 0xa64251d1
    ensures Step(Step(Step(Step(0x7cb8648d)))) == 0x8118549c
    ensures Step(Step(Step(Step(0xe5a90669)))) == 0xfe550322
    ensures Step(Step(Step(Step(0x12524056)))) == 0x4c97455d
    ensures Step(Step(Step(Step(0xb9748649)))) == 0xfb98db20
    ensures Step(Step(Step(Step(0x120e9dd6)))) == 0x4c928885
    ensures Step(Step(Step(Step(0x197e38e8)))) == 0xec2f60ae
    ensures Step(Step(Step(Step(0x881124dd)))) == 0x8e52c099
    ensures Step(Step(Step(Step(0xc3849f87)))) == 0x5c3d38c4
    ensures Step(Step(Step(Step(0x6ea88279)))) == 0xf6e51b63
    ensures Step(Step(Step(Step(0x3400717a)))) == 0xd596a4ff
  {
  }

  lemma SampleSums()
    ensures Xor(0xffffffff, 0x01 as bv8 as bv32) == 0xfffffffe
    ensures Xor(0x5afa20e4, 0x04 as bv8 as bv32) == 0x5afa20e0
    ensures Xor(0xa0501858, 0x7e as bv8 as bv32) == 0xa0501826
    ensures Xor(0xd2add5e5, 0x7d as bv8 as bv32) == 0xd2add598
    ensures Xor(0xfe06b6a3, 0x06 as bv8 as bv32) == 0xfe06b6a5
    ensures Xor(0xa64251d1, 0x05 as bv8 as bv32) == 0xa64251d4
    ensures Xor(0x8118549c, 0x04 as bv8 as bv32) == 0x81185498
    ensures Xor(0xfe550322, 0x03 as bv8 as bv32) == 0xfe550321
    ensures Xor(0x4c97455d, 0x02 as bv8 as bv32) == 0x4c97455f
    ensures Xor(0xfb98db20, 0x01 as bv8 as bv32) == 0xfb98db21
    ensures Xor(0x4c928885, 0x44 as bv8 as bv32) == 0x4c9288c1
    ensures Xor(0xec2f60ae, 0x33 as bv8 as bv32) == 0xec2f609d
    ensures Xor(0x8e52c099, 0x22 as bv8 as bv32) == 0x8e52c0bb
    ensures Xor(0x5c3d38c4, 0x11 as bv8 as bv32) == 0x5c3d38d5
    ensures Xor(0xf6e51b63, 0x41 as bv8 as bv32) == 0xf6e51b22
    ensures Xor(0xd596a4ff, 0xffffffff) == 0x2a695b00
  {
  }

  lemma SampleRegister3()
    ensures Register(PRESET, SAMPLE_HEADER[..3]) == 0xd2add5e5
  {
    hide Xor;
    hide Step;
    hide Absorb;
    SampleSums();
    SampleLowNibbles();
    SampleHighNibbles();
    NothingAbsorbed(SAMPLE_HEADER);
    hide Register;
    NextByte(SAMPLE_HEADER, 0, 0xffffffff, 0xfffffffe, 0xaff51d87, 0x5afa20e4);
    NextByte(SAMPLE_HEADER, 1, 0x5afa20e4, 0x5afa20e0, 0x05afa20e, 0xa0501858);
    NextByte(SAMPLE_HEADER, 2, 0xa0501858, 0xa0501826, 0x47b760da, 0xd2add5e5);
  }

  lemma SampleRegister6()
    ensures Register(PRESET, SAMPLE_HEADER[..6]) == 0x8118549c
  {
    hide Xor;
    hide Step;
    hide Absorb;
    SampleSums();
    SampleLowNibbles();
    SampleHighNibbles();
    SampleRegister3();
    hide Register;
    NextByte(SAMPLE_HEADER, 3, 0xd2add5e5, 0xd2add598, 0xe0925e79, 0xfe06b6a3);
    NextByte(SAMPLE_HEADER, 4, 0xfe06b6a3, 0xfe06b6a5, 0x648b3a9e, 0xa64251d1);
    NextByte(SAMPLE_HEADER, 5, 0xa64251d1, 0xa64251d4, 0x7cb8648d, 0x8118549c);
  }

  lemma SampleRegister9()
    ensures Register(PRESET, SAMPLE_HEADER[..9]) == 0xfb98db20
  {
    hide Xor;
    hide Step;
    hide Absorb;
    SampleSums();
    SampleLowNibbles();
    SampleHighNibbles();
    SampleRegister6();
    hide Register;
    NextByte(SAMPLE_HEADER, 6, 0x8118549c, 0x81185498, 0xe5a90669, 0xfe550322);
    NextByte(SAMPLE_HEADER, 7, 0xfe550322, 0xfe550321, 0x12524056, 0x4c97455d);
    NextByte(SAMPLE_HEADER, 8, 0x4c97455d, 0x4c97455f, 0xb9748649, 0xfb98db20);
  }

  lemma SampleRegister12()
    ensures Register(PRESET, SAMPLE_HEADER[..12]) == 0x8e52c099
  {
    hide Xor;
    hide Step;
    hide Absorb;
    SampleSums();
    SampleLowNibbles();
    SampleHighNibbles();
    SampleRegister9();
    hide Register;
    NextByte(SAMPLE_HEADER, 9, 0xfb98db20, 0xfb98db21, 0x120e9dd6, 0x4c928885);
    NextByte(SAMPLE_HEADER, 10, 0x4c928885, 0x4c9288c1, 0x197e38e8, 0xec2f60ae);
    NextByte(SAMPLE_HEADER, 11, 0xec2f60ae, 0xec2f609d, 0x881124dd, 0x8e52c099);
  }

  lemma SampleRegister15()
    ensures Register(PRESET, SAMPLE_HEADER[..15]) == 0xd596a4ff
  {
    hide Xor;
    hide Step;
    hide Absorb;
    SampleSums();
    SampleLowNibbles();
    SampleHighNibbles();
    SampleRegister12();
    hide Register;
    NextByte(SAMPLE_HEADER, 12, 0x8e52c099, 0x8e52c0bb, 0xc3849f87, 0x5c3d38c4);
    NextByte(SAMPLE_HEADER, 13, 0x5c3d38c4, 0x5c3d38d5, 0x6ea88279, 0xf6e51b63);
    NextByte(SAMPLE_HEADER, 14, 0xf6e51b63, 0xf6e51b22, 0x3400717a, 0xd596a4ff);
  }

  lemma SampleCrc()
    ensures Crc(SAMPLE_HEADER) == 0x2a695b00 && Le32(0x2a695b00) == [0x00, 0x5b, 0x69, 0x2a]
  {
    hide Xor;
    hide Register;
    SampleRegister15();
    SampleSums();
    assert SAMPLE_HEADER[..15] == SAMPLE_HEADER;
  }

  lemma {:induction false} StuffConcat(a: seq<bv8>, b: seq<bv8>)
    ensures Stuff(a + b) == Stuff(a) + Stuff(b)
  {
    hide StuffByte;
    if b == [] {
      assert a + b == a;
    } else {
      var n := |b| - 1;
      assert (a + b)[..|a + b| - 1] == a + b[..n];
      StuffConcat(a, b[..n]);
    }
  }

  lemma {:induction false} StuffPlain(s: seq<bv8>)
    requires forall i :: 0 <= i < |s| ==> !NeedsEscape(s[i])
    ensures Stuff(s) == s
  {
    if s != [] {
      StuffPlain(s[..|s| - 1]);
      assert s == s[..|s| - 1] + [s[|s| - 1]];
    }
  }

  lemma StuffSpecial()
    ensures Stuff([FLAG]) == [0x7d, 0x5e] && Stuff([ESCAPE]) == [0x7d, 0x5d]
  {
    assert (0x7e as bv8) ^ 0x20 == 0x5e && (0x7d as bv8) ^ 0x20 == 0x5d;
    assert [FLAG][..0] == [] && [ESCAPE][..0] == [];
  }

  /** The sample on the wire, byte for byte. */
  lemma SampleOnTheWire()
    ensures Wire(SAMPLE) ==
            [0x7e, 0x01, 0x04, 0x7d, 0x5e, 0x7d, 0x5d, 0x06, 0x05, 0x04, 0x03,
             0x02, 0x01, 0x44, 0x33, 0x22, 0x11, 0x41, 0x00, 0x5b, 0x69, 0x2a, 0x7e]
  {
    hide Crc;
    hide Le32;
    hide Header;
    hide Stuff;
    SampleFields();
    SampleCrc();
    var first: seq<bv8> := [0x01, 0x04];
    var last: seq<bv8> :=
      [0x06, 0x05, 0x04, 0x03, 0x02, 0x01, 0x44, 0x33, 0x22, 0x11, 0x41, 0x00, 0x5b, 0x69, 0x2a];
    assert Body(SAMPLE) == ((first + [FLAG]) + [ESCAPE]) + last;
    StuffConcat((first + [FLAG]) + [ESCAPE], last);
    StuffConcat(first + [FLAG], [ESCAPE]);
    StuffConcat(first, [FLAG]);
    StuffPlain(first);
    StuffPlain(last);
    StuffSpecial();
  }
}
