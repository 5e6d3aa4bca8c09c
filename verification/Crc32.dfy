/**
 The CRC-32 of the mux frames (src/mux.rs, mux_codec.c): the 32-bit FCS of Appendix C.3 of RFC 1662,
 computed bit by bit over a 32-bit register.
 */
module Crc32 {

  const POLYNOMIAL: bv32 := 0xedb88320
  const PRESET: bv32 := 0xffffffff
  /** The register left behind by any message that is followed by its own CRC. */
  const RESIDUE: bv32 := 0xdebb20e3

  function Xor(c: bv32, d: bv32): bv32 {
    c ^ d
  }

  /** One bit of the division. */
  function Step(c: bv32): bv32 {
    if c & 1 == 1 then (c >> 1) ^ POLYNOMIAL else c >> 1
  }

  function Steps(c: bv32, n: nat): bv32
    decreases n
  {
    if n == 0 then c else Steps(Step(c), n - 1)
  }

  function Absorb(c: bv32, b: bv8): bv32 {
    Steps(Xor(c, b as bv32), 8)
  }

  /** The register after all of s, starting from c. */
  function Register(c: bv32, s: seq<bv8>): bv32 {
    if s == [] then c else Absorb(Register(c, s[..|s| - 1]), s[|s| - 1])
  }

  function Crc(s: seq<bv8>): bv32 {
    Xor(Register(PRESET, s), 0xffffffff)
  }

  /** The four bytes of a word, least significant first. */
  function Le32(w: bv32): (r: seq<bv8>)
    ensures |r| == 4
  {
    [(w & 0xff) as bv8, ((w >> 8) & 0xff) as bv8, ((w >> 16) & 0xff) as bv8, ((w >> 24) & 0xff) as bv8]
  }

  /** The shifted bytes do not overlap, so that xor puts them together. */
  function Word(b0: bv8, b1: bv8, b2: bv8, b3: bv8): bv32 {
    Xor(Xor(Xor(b0 as bv32, (b1 as bv32) << 8), (b2 as bv32) << 16), (b3 as bv32) << 24)
  }

  function FromLe32(s: seq<bv8>): bv32
    requires |s| == 4
  {
    Word(s[0], s[1], s[2], s[3])
  }

  /** The inner loop of crc32 and mux_crc32, with its branch-free form of Step. */
  method AbsorbByte(c: bv32, b: bv8) returns (crc: bv32)
    ensures crc == Absorb(c, b)
  {
    crc := c ^ (b as bv32);
    assert crc == Xor(c, b as bv32);
    hide Step;
    hide Xor;
    for j := 0 to 8
      invariant Steps(crc, 8 - j) == Absorb(c, b)
    {
      MaskedStep(crc);
      crc := (crc >> 1) ^ (0xedb88320 & (0 - (crc & 1)));
    }
  }

  /** crc32 and mux_crc32. */
  method ComputeCrc(bytes: seq<bv8>) returns (crc: bv32)
    ensures crc == Crc(bytes)
  {
    crc := 0xffffffff;
    hide Absorb;
    for i := 0 to |bytes|
      invariant crc == Register(PRESET, bytes[..i])
    {
      assert bytes[..i + 1][..i] == bytes[..i];
      crc := AbsorbByte(crc, bytes[i]);
    }
    assert bytes[..|bytes|] == bytes;
    Complement(crc);
    crc := !crc;
  }

  // ---------- bit-vector facts ----------

  lemma Complement(c: bv32)
    ensures !c == Xor(c, 0xffffffff)
  {
  }

  lemma LowBit(c: bv32)
    ensures c & 1 == 0 || c & 1 == 1
  {
  }

  lemma MaskedStep(c: bv32)
    ensures (c >> 1) ^ (0xedb88320 & (0 - (c & 1))) == Step(c)
  {
    LowBit(c);
    if c & 1 == 0 {
      assert 0xedb88320 & (0 as bv32) == 0;
    } else {
      assert 0 - (1 as bv32) == 0xffffffff;
    }
  }

  lemma XorInjective(a: bv32, b: bv32, c: bv32)
    requires Xor(a, c) == Xor(b, c) || Xor(c, a) == Xor(c, b)
    ensures a == b
  {
    assert (a ^ c) ^ c == a && (c ^ a) ^ c == a;
    assert (b ^ c) ^ c == b && (c ^ b) ^ c == b;
  }

  lemma LittleEndian(w: bv32)
    ensures FromLe32(Le32(w)) == w
  {
  }

  lemma WordBytes(b0: bv8, b1: bv8, b2: bv8, b3: bv8)
    ensures Le32(Word(b0, b1, b2, b3)) == [b0, b1, b2, b3]
  {
  }

  // ---------- the step is a linear bijection ----------

  /** The inverse of Step: the polynomial's top bit tells which bit was shifted out. */
  function Unstep(c: bv32): bv32 {
    if c & 0x80000000 != 0 then ((c ^ POLYNOMIAL) << 1) | 1 else c << 1
  }

  lemma UnstepOdd(c: bv32)
    requires c & 0x80000000 != 0
    ensures var u := ((c ^ POLYNOMIAL) << 1) | 1; u & 1 == 1 && (u >> 1) ^ POLYNOMIAL == c
  {
  }

  lemma UnstepEven(c: bv32)
    requires c & 0x80000000 == 0
    ensures var u := c << 1; u & 1 == 0 && u >> 1 == c
  {
  }

  lemma StepUnstep(c: bv32)
    ensures Step(Unstep(c)) == c
  {
    if c & 0x80000000 != 0 {
      UnstepOdd(c);
    } else {
      UnstepEven(c);
    }
  }

  lemma UnstepStep(c: bv32)
    ensures Unstep(Step(c)) == c
  {
  }

  lemma StepLinear(c: bv32, d: bv32)
    ensures Step(Xor(c, d)) == Xor(Step(c), Step(d))
  {
    LowBit(c);
    LowBit(d);
    if c & 1 == 0 {
      if d & 1 == 0 {
        StepLinearEvenEven(c, d);
      } else {
        StepLinearEvenOdd(c, d);
      }
    } else if d & 1 == 0 {
      StepLinearEvenOdd(d, c);
      XorCommutes(c, d);
      XorCommutes(Step(c), Step(d));
    } else {
      StepLinearOddOdd(c, d);
    }
  }

  lemma XorCommutes(c: bv32, d: bv32)
    ensures Xor(c, d) == Xor(d, c)
  {
  }

  lemma StepLinearEvenEven(c: bv32, d: bv32)
    requires c & 1 == 0 && d & 1 == 0
    ensures Step(Xor(c, d)) == Xor(Step(c), Step(d))
  {
    assert (c ^ d) & 1 == 0;
  }

  lemma StepLinearEvenOdd(c: bv32, d: bv32)
    requires c & 1 == 0 && d & 1 == 1
    ensures Step(Xor(c, d)) == Xor(Step(c), Step(d))
  {
    hide Step;
    hide Xor;
    EvenStep(c);
    OddStep(d);
    EvenOddBits(c, d);
    OddStep(Xor(c, d));
  }

  lemma EvenOddBits(c: bv32, d: bv32)
    requires c & 1 == 0 && d & 1 == 1
    ensures Xor(c, d) & 1 == 1
    ensures Xor(Xor(c, d) >> 1, POLYNOMIAL) == Xor(c >> 1, Xor(d >> 1, POLYNOMIAL))
  {
  }

  lemma EvenStep(w: bv32)
    requires w & 1 == 0
    ensures Step(w) == w >> 1
  {
  }

  lemma OddStep(w: bv32)
    requires w & 1 == 1
    ensures Step(w) == Xor(w >> 1, POLYNOMIAL)
  {
  }

  lemma StepLinearOddOdd(c: bv32, d: bv32)
    requires c & 1 == 1 && d & 1 == 1
    ensures Step(Xor(c, d)) == Xor(Step(c), Step(d))
  {
    assert (c ^ d) & 1 == 0;
  }

  lemma {:induction false} StepsInjective(c: bv32, d: bv32, n: nat)
    requires Steps(c, n) == Steps(d, n)
    ensures c == d
    decreases n
  {
    hide Step;
    if n > 0 {
      StepsInjective(Step(c), Step(d), n - 1);
      UnstepStep(c);
      UnstepStep(d);
    }
  }

  lemma {:induction false} StepsLinear(c: bv32, d: bv32, n: nat)
    ensures Steps(Xor(c, d), n) == Xor(Steps(c, n), Steps(d, n))
    decreases n
  {
    hide Step;
    hide Xor;
    if n > 0 {
      StepLinear(c, d);
      StepsLinear(Step(c), Step(d), n - 1);
    }
  }

  lemma {:induction false} StepsCompose(c: bv32, m: nat, n: nat)
    ensures Steps(Steps(c, m), n) == Steps(c, m + n)
    decreases m
  {
    hide Step;
    if m > 0 {
      StepsCompose(Step(c), m - 1, n);
    }
  }

  /** Eight steps of a word whose low byte is zero only shift it. */
  lemma EightStepsShift(w: bv32)
    requires w & 0xff == 0
    ensures Steps(w, 8) == w >> 8
  {
    FourStepsShift(w);
    FourStepsShift(w >> 4);
    StepsCompose(w, 4, 4);
    assert (w >> 4) >> 4 == w >> 8;
  }

  lemma FourStepsShift(w: bv32)
    requires w & 0xf == 0
    ensures Steps(w, 4) == w >> 4
  {
    hide Step;
    TwoStepsShift(w);
    TwoStepsShift(w >> 2);
    StepsCompose(w, 2, 2);
    assert (w >> 2) >> 2 == w >> 4;
  }

  lemma TwoStepsShift(w: bv32)
    requires w & 3 == 0
    ensures Steps(w, 2) == w >> 2
  {
    hide Step;
    EvenStep(w);
    assert (w >> 1) & 1 == 0;
    EvenStep(w >> 1);
    assert Steps(w, 2) == Step(Step(w));
  }
}
