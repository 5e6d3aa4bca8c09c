/**
 What the CRC of src/mux.rs detects: the register step is a bijection, four bytes act on the register as
 one word, and a frame body carries its own CRC exactly when it leaves a fixed residue in the register.
 Hence no change confined to four consecutive bytes can go unnoticed.
 */
module CrcBurst {
  import opened Crc32

  lemma {:induction false} RegisterConcat(c: bv32, a: seq<bv8>, b: seq<bv8>)
    ensures Register(c, a + b) == Register(Register(c, a), b)
  {
    hide Absorb;
    if b == [] {
      assert a + b == a;
    } else {
      var n := |b| - 1;
      assert (a + b)[..|a + b| - 1] == a + b[..n];
      RegisterConcat(c, a, b[..n]);
    }
  }

  /** Reading the same bytes never merges two register values. */
  lemma {:induction false} RegisterInjective(c: bv32, d: bv32, s: seq<bv8>)
    requires Register(c, s) == Register(d, s)
    ensures c == d
  {
    hide Steps;
    hide Xor;
    if s != [] {
      var n := |s| - 1;
      var x, y := Register(c, s[..n]), Register(d, s[..n]);
      StepsInjective(Xor(x, s[n] as bv32), Xor(y, s[n] as bv32), 8);
      XorInjective(x, y, s[n] as bv32);
      RegisterInjective(c, d, s[..n]);
    }
  }

  lemma ShiftedByte(b: bv8)
    ensures Steps((b as bv32) << 8, 8) == b as bv32
    ensures Steps((b as bv32) << 16, 16) == b as bv32
    ensures Steps((b as bv32) << 24, 24) == b as bv32
  {
    hide Steps;
    var w := b as bv32;
    ShiftFacts(w);
    EightStepsShift(w << 8);
    EightStepsShift(w << 16);
    EightStepsShift(w << 24);
    StepsCompose(w << 16, 8, 8);
    StepsCompose(w << 24, 8, 16);
  }

  lemma ShiftFacts(w: bv32)
    requires w & 0xff == w
    ensures (w << 8) & 0xff == 0 && (w << 16) & 0xff == 0 && (w << 24) & 0xff == 0
    ensures (w << 8) >> 8 == w && (w << 16) >> 8 == w << 8 && (w << 24) >> 8 == w << 16
  {
  }

  lemma WordIsXor(c: bv32, b0: bv8, b1: bv8, b2: bv8, b3: bv8)
    ensures Xor(c, Word(b0, b1, b2, b3))
         == Xor(Xor(Xor(Xor(c, b0 as bv32), (b1 as bv32) << 8), (b2 as bv32) << 16), (b3 as bv32) << 24)
  {
    hide Xor;
    var w0, w1, w2, w3 := b0 as bv32, (b1 as bv32) << 8, (b2 as bv32) << 16, (b3 as bv32) << 24;
    XorAssociates(c, Xor(Xor(w0, w1), w2), w3);
    XorAssociates(c, Xor(w0, w1), w2);
    XorAssociates(c, w0, w1);
  }

  lemma XorAssociates(a: bv32, b: bv32, c: bv32)
    ensures Xor(a, Xor(b, c)) == Xor(Xor(a, b), c)
  {
  }

  /** Four bytes are one word xor followed by 32 steps. */
  lemma FourBytes(c: bv32, b0: bv8, b1: bv8, b2: bv8, b3: bv8)
    ensures Register(c, [b0, b1, b2, b3]) == Steps(Xor(c, Word(b0, b1, b2, b3)), 32)
  {
    hide Steps;
    hide Xor;
    hide Word;
    ShiftedByte(b1);
    ShiftedByte(b2);
    ShiftedByte(b3);
    var x0 := Xor(c, b0 as bv32);
    StepsLinear(x0, (b1 as bv32) << 8, 8);
    var x1 := Xor(x0, (b1 as bv32) << 8);
    StepsCompose(x1, 8, 8);
    StepsLinear(x1, (b2 as bv32) << 16, 16);
    var x2 := Xor(x1, (b2 as bv32) << 16);
    StepsCompose(x2, 16, 8);
    StepsLinear(x2, (b3 as bv32) << 24, 24);
    var x3 := Xor(x2, (b3 as bv32) << 24);
    StepsCompose(x3, 24, 8);
    WordIsXor(c, b0, b1, b2, b3);
    assert Register(c, []) == c;
    UnrollFour(c, b0, b1, b2, b3);
  }

  lemma UnrollFour(c: bv32, b0: bv8, b1: bv8, b2: bv8, b3: bv8)
    ensures Register(c, [b0, b1, b2, b3]) == Absorb(Absorb(Absorb(Absorb(c, b0), b1), b2), b3)
  {
    hide Absorb;
    assert [b0][..0] == [];
    assert Register(c, [b0]) == Absorb(c, b0);
    assert [b0, b1][..1] == [b0];
    assert Register(c, [b0, b1]) == Absorb(Register(c, [b0]), b1);
    assert [b0, b1, b2][..2] == [b0, b1];
    assert Register(c, [b0, b1, b2]) == Absorb(Register(c, [b0, b1]), b2);
    assert [b0, b1, b2, b3][..3] == [b0, b1, b2];
    assert Register(c, [b0, b1, b2, b3]) == Absorb(Register(c, [b0, b1, b2]), b3);
  }

  lemma FourSteps(c: bv32, n: nat)
    ensures Steps(c, n + 4) == Steps(Step(Step(Step(Step(c)))), n)
  {
    hide Step;
    StepsCompose(c, 4, n);
    StepsCompose(c, 2, 2);
  }

  lemma ResidueQuarters()
    ensures Step(Step(Step(Step(0xffffffff)))) == 0xb2420de3
    ensures Step(Step(Step(Step(0xb2420de3)))) == 0x2dfd1072
    ensures Step(Step(Step(Step(0x2dfd1072)))) == 0x39b1f1cf
    ensures Step(Step(Step(Step(0x39b1f1cf)))) == 0xbe26ed00
    ensures Step(Step(Step(Step(0xbe26ed00)))) == 0x0be26ed0
    ensures Step(Step(Step(Step(0x0be26ed0)))) == 0x00be26ed
    ensures Step(Step(Step(Step(0x00be26ed)))) == 0x86d830ba
    ensures Step(Step(Step(Step(0x86d830ba)))) == 0xdebb20e3
  {
  }

  lemma ResidueValue()
    ensures Steps(0xffffffff, 32) == RESIDUE
  {
    hide Step;
    ResidueQuarters();
    FourSteps(0xffffffff, 28);
    FourSteps(0xb2420de3, 24);
    FourSteps(0x2dfd1072, 20);
    FourSteps(0x39b1f1cf, 16);
    FourSteps(0xbe26ed00, 12);
    FourSteps(0x0be26ed0, 8);
    FourSteps(0x00be26ed, 4);
    FourSteps(0x86d830ba, 0);
  }

  lemma XorTwice(r: bv32, w: bv32)
    ensures Xor(r, Xor(r, w)) == w
  {
  }

  /** A CRC field is the right one exactly when the register ends at the residue. */
  lemma ResidueAccepts(data: seq<bv8>, field: seq<bv8>)
    requires |field| == 4
    ensures FromLe32(field) == Crc(data) <==> Register(PRESET, data + field) == RESIDUE
  {
    hide Steps;
    hide Xor;
    hide Word;
    var r := Register(PRESET, data);
    var w := FromLe32(field);
    RegisterConcat(PRESET, data, field);
    assert field == [field[0], field[1], field[2], field[3]];
    FourBytes(r, field[0], field[1], field[2], field[3]);
    ResidueValue();
    XorTwice(r, 0xffffffff);
    if Register(PRESET, data + field) == RESIDUE {
      StepsInjective(Xor(r, w), 0xffffffff, 32);
      XorTwice(r, w);
    }
  }

  /** a and b agree outside the four bytes from i on. */
  predicate DifferWithin(a: seq<bv8>, b: seq<bv8>, i: nat) {
    && |a| == |b|
    && i + 4 <= |a|
    && a[..i] == b[..i]
    && a[i + 4..] == b[i + 4..]
  }

  lemma WordInjective(a: seq<bv8>, b: seq<bv8>)
    requires |a| == 4 && |b| == 4 && FromLe32(a) == FromLe32(b)
    ensures a == b
  {
    hide Word;
    WordBytes(a[0], a[1], a[2], a[3]);
    WordBytes(b[0], b[1], b[2], b[3]);
  }

  lemma FourBytesInjective(c: bv32, x: seq<bv8>, y: seq<bv8>)
    requires |x| == 4 && |y| == 4
    requires Register(c, x) == Register(c, y)
    ensures x == y
  {
    hide Steps;
    hide Xor;
    hide Word;
    assert x == [x[0], x[1], x[2], x[3]] && y == [y[0], y[1], y[2], y[3]];
    FourBytes(c, x[0], x[1], x[2], x[3]);
    FourBytes(c, y[0], y[1], y[2], y[3]);
    StepsInjective(Xor(c, FromLe32(x)), Xor(c, FromLe32(y)), 32);
    XorInjective(FromLe32(x), FromLe32(y), c);
    WordInjective(x, y);
  }

  /** No burst of up to four consecutive bytes leaves the register unchanged. */
  lemma BurstChangesRegister(c: bv32, a: seq<bv8>, b: seq<bv8>, i: nat)
    requires DifferWithin(a, b, i)
    requires Register(c, a) == Register(c, b)
    ensures a == b
  {
    hide Register;
    var p, x, y, t := a[..i], a[i..i + 4], b[i..i + 4], a[i + 4..];
    assert a == (p + x) + t;
    assert b == (p + y) + t;
    RegisterConcat(c, p + x, t);
    RegisterConcat(c, p + y, t);
    RegisterInjective(Register(c, p + x), Register(c, p + y), t);
    RegisterConcat(c, p, x);
    RegisterConcat(c, p, y);
    FourBytesInjective(Register(c, p), x, y);
  }

  function LowByte(c: bv32): bv32 {
    c & 0xff
  }

  function Rest(c: bv32): bv32 {
    c >> 8
  }

  /** The table-driven form of Appendix C.3 of RFC 1662: one table entry for each low byte of the register. */
  lemma TableForm(c: bv32, b: bv8)
    ensures Absorb(c, b) == Xor(Rest(c), Steps(LowByte(Xor(c, b as bv32)), 8))
  {
    hide Steps;
    hide Xor;
    hide LowByte;
    hide Rest;
    var low, high := SplitWord(c, b);
    StepsLinear(low, high, 8);
    XorCommutes(Rest(c), Steps(low, 8));
  }

  lemma SplitWord(c: bv32, b: bv8) returns (low: bv32, high: bv32)
    ensures Xor(c, b as bv32) == Xor(low, high)
    ensures low == LowByte(Xor(c, b as bv32))
    ensures Steps(high, 8) == Rest(c)
  {
    hide Steps;
    hide Xor;
    hide LowByte;
    hide Rest;
    ByteIsLow(b);
    low, high := SplitBits(c, b as bv32);
    EightStepsShift(high);
  }

  lemma ByteIsLow(b: bv8)
    ensures (b as bv32) & 0xff == b as bv32
  {
  }

  lemma SplitBits(c: bv32, v: bv32) returns (low: bv32, high: bv32)
    requires v & 0xff == v
    ensures low == LowByte(Xor(c, v)) && Xor(c, v) == Xor(low, high)
    ensures high & 0xff == 0 && high >> 8 == Rest(c)
  {
    var x := c ^ v;
    low, high := x & 0xff, x & 0xffffff00;
    MaskedParts(x);
    HighBits(c, v);
  }

  lemma MaskedParts(x: bv32)
    ensures x == (x & 0xff) ^ (x & 0xffffff00) && (x & 0xffffff00) & 0xff == 0
  {
  }

  lemma HighBits(c: bv32, v: bv32)
    requires v & 0xff == v
    ensures ((c ^ v) & 0xffffff00) >> 8 == c >> 8
  {
  }
}
