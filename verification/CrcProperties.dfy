/** What identifies CRC-32 among checksums, and what it detects. */
module CrcProperties {
  import opened Bytes
  import opened Crc32

  function Octet(x: bv32): bv8 {
    (x & 0xFF) as bv8
  }

  function LowByte(x: bv32): byte {
    Octet(x) as int
  }

  /** The four bytes of w, least significant first. */
  function Trailer(w: bv32): seq<byte> {
    [LowByte(w), LowByte(w >> 8), LowByte(w >> 16), LowByte(w >> 24)]
  }

  lemma OctetThere(y: bv8)
    ensures (y as int) as bv8 == y
  {
  }

  /** In sixteen cases, each of them small enough for the solver. */
  lemma OctetBack(x: int)
    requires 0 <= x < 256
    ensures (x as bv8) as int == x
  {
    if x < 16 {
    } else if x < 32 {
    } else if x < 48 {
    } else if x < 64 {
    } else if x < 80 {
    } else if x < 96 {
    } else if x < 112 {
    } else if x < 128 {
    } else if x < 144 {
    } else if x < 160 {
    } else if x < 176 {
    } else if x < 192 {
    } else if x < 208 {
    } else if x < 224 {
    } else if x < 240 {
    }
  }

  lemma Widen(x: bv32)
    ensures Octet(x) as bv32 == x & 0xFF
  {
  }

  lemma WidenInjective(a: bv8, b: bv8)
    requires a as bv32 == b as bv32
    ensures a == b
  {
  }

  lemma WordOfLowByte(x: bv32)
    ensures Word(LowByte(x)) == x & 0xFF
  {
    hide Octet;
    OctetThere(Octet(x));
    Widen(x);
  }

  lemma SplitLow(s: bv32, w: bv32)
    ensures Xor(s, w) == Xor(Xor(s, w & 0xFF), High24(w)) && Shift8(High24(w)) == w >> 8
  {
  }

  /** Feeding in the low byte of w and adding the others afterwards is feeding in all of w. */
  lemma PeelByte(s: bv32, w: bv32)
    ensures Xor(EightSteps(Xor(s, w & 0xFF)), w >> 8) == EightSteps(Xor(s, w))
  {
    SplitLow(s, w);
    hide EightSteps, Xor, High24, Shift8;
    var x := Xor(s, w & 0xFF);
    BitStepsLinear(x, High24(w), 8);
    EightStepsUnrolled(x);
    EightStepsUnrolled(High24(w));
    EightStepsUnrolled(Xor(x, High24(w)));
    HighSteps(w);
  }

  function FourBytes(x: bv32): bv32 {
    EightSteps(EightSteps(EightSteps(EightSteps(x))))
  }

  lemma ShiftedDown(w: bv32)
    ensures Down(w, w >> 8) && Down(w >> 8, w >> 16) && Down(w >> 16, w >> 24) && Down(w >> 24, 0)
  {
  }

  lemma XorZero(x: bv32)
    ensures Xor(x, 0) == x
  {
  }

  lemma OneByte(c: bv32, w: bv32)
    ensures SerialByte(c, LowByte(w)) == EightSteps(Xor(c, w & 0xFF))
  {
    WordOfLowByte(w);
    EightStepsUnrolled(Xor(c, w & 0xFF));
  }

  lemma FourSerialBytes(c: bv32, s: seq<byte>)
    requires |s| == 4
    ensures SerialBytes(c, s) == SerialByte(SerialByte(SerialByte(SerialByte(c, s[0]), s[1]), s[2]), s[3])
  {
    hide SerialByte;
    assert s[1..][1..] == s[2..] && s[2..][1..] == s[3..] && s[3..][1..] == [];
    assert s[1..][0] == s[1] && s[2..][0] == s[2] && s[3..][0] == s[3];
    var c1 := SerialByte(c, s[0]);
    var c2 := SerialByte(c1, s[1]);
    var c3 := SerialByte(c2, s[2]);
    assert SerialBytes(c, s) == SerialBytes(c1, s[1..]) == SerialBytes(c2, s[2..]) == SerialBytes(c3, s[3..]);
    assert SerialBytes(c3, s[3..]) == SerialBytes(SerialByte(c3, s[3]), []);
  }

  predicate Down(w: bv32, rest: bv32) {
    w >> 8 == rest
  }

  /** One byte fed in, for the register and the rest of the word. */
  lemma StepDown(c: bv32, w: bv32, rest: bv32)
    requires Down(w, rest)
    ensures Xor(SerialByte(c, LowByte(w)), rest) == EightSteps(Xor(c, w))
  {
    OneByte(c, w);
    PeelByte(c, w);
    hide SerialByte, EightSteps, Xor, LowByte;
  }

  lemma FourStepsDown(c: bv32, w: bv32, w1: bv32, w2: bv32, w3: bv32)
    requires Down(w, w1) && Down(w1, w2) && Down(w2, w3) && Down(w3, 0)
    ensures SerialByte(SerialByte(SerialByte(SerialByte(c, LowByte(w)), LowByte(w1)), LowByte(w2)), LowByte(w3))
         == FourBytes(Xor(c, w))
  {
    hide SerialByte, EightSteps, Xor, LowByte, Down;
    var s1 := SerialByte(c, LowByte(w));
    var s2 := SerialByte(s1, LowByte(w1));
    var s3 := SerialByte(s2, LowByte(w2));
    StepDown(c, w, w1);
    StepDown(s1, w1, w2);
    StepDown(s2, w2, w3);
    StepDown(s3, w3, 0);
    XorZero(SerialByte(s3, LowByte(w3)));
  }

  /** Four bytes are 32 bit steps on the register with all of them added. */
  lemma TrailerSteps(c: bv32, w: bv32)
    ensures SerialBytes(c, Trailer(w)) == FourBytes(Xor(c, w))
  {
    hide SerialByte, SerialBytes, FourBytes, Xor, LowByte;
    ShiftedDown(w);
    FourSerialBytes(c, Trailer(w));
    FourStepsDown(c, w, w >> 8, w >> 16, w >> 24);
  }

  lemma ResidueConstant()
    ensures FourBytes(0xFFFF_FFFF) == 0xDEBB_20E3
  {
    assert EightSteps(0xFFFF_FFFF) == 0x2D02_EF8D ^ 0xFF_FFFF;
  }

  lemma Inverted(c: bv32)
    ensures Xor(c, Not(c)) == 0xFFFF_FFFF && Not(0xDEBB_20E3) == 0x2144_DF1C
  {
  }

  /** Text followed by its own checksum always has the same checksum. */
  lemma Residue(s: seq<byte>)
    ensures Crc(0, s + Trailer(Crc(0, s))) == 0x2144_DF1C
  {
    hide SerialBytes, FourBytes, Not, Xor, Trailer;
    var c := SerialBytes(Not(0), s);
    SerialBytesConcat(Not(0), s, Trailer(Not(c)));
    TrailerSteps(c, Not(c));
    Inverted(c);
    ResidueConstant();
  }

  // ----- Detection -----

  lemma BitStepInjective(x: bv32, y: bv32)
    requires BitStep(x) == BitStep(y)
    ensures x == y
  {
  }

  lemma {:induction false} BitStepsInjective(x: bv32, y: bv32, n: nat)
    requires BitSteps(x, n) == BitSteps(y, n)
    ensures x == y
    decreases n
  {
    hide BitStep;
    if n > 0 {
      BitStepsInjective(BitStep(x), BitStep(y), n - 1);
      BitStepInjective(x, y);
    }
  }

  lemma XorInjective(x: bv32, y: bv32, z: bv32)
    requires Xor(x, z) == Xor(y, z)
    ensures x == y
  {
  }

  lemma XorInjectiveRight(x: bv32, y: bv32, z: bv32)
    requires Xor(z, x) == Xor(z, y)
    ensures x == y
  {
  }

  lemma NotInjective(x: bv32, y: bv32)
    requires Not(x) == Not(y)
    ensures x == y
  {
  }

  lemma WordInjective(x: byte, y: byte)
    requires Word(x) == Word(y)
    ensures x == y
  {
    WidenInjective(x as bv8, y as bv8);
    OctetBack(x);
    OctetBack(y);
  }

  /** Different registers stay different, whatever is fed in. */
  lemma {:induction false} SerialBytesInjective(c: bv32, d: bv32, s: seq<byte>)
    requires SerialBytes(c, s) == SerialBytes(d, s)
    ensures c == d
    decreases |s|
  {
    hide BitSteps, Word, Xor;
    if s != [] {
      SerialBytesInjective(SerialByte(c, s[0]), SerialByte(d, s[0]), s[1..]);
      BitStepsInjective(Xor(c, Word(s[0])), Xor(d, Word(s[0])), 8);
      XorInjective(c, d, Word(s[0]));
    }
  }

  /** A change of one byte, anywhere, changes the checksum. */
  lemma OneByteChangeDetected(c: bv32, a: seq<byte>, x: byte, y: byte, b: seq<byte>)
    requires Crc(c, a + [x] + b) == Crc(c, a + [y] + b)
    ensures x == y
  {
    hide Not, Xor, SerialBytes, BitSteps, Word;
    var m := SerialBytes(Not(c), a);
    Passing(Not(c), a, x, b);
    Passing(Not(c), a, y, b);
    NotInjective(SerialBytes(Not(c), a + [x] + b), SerialBytes(Not(c), a + [y] + b));
    SerialBytesInjective(SerialByte(m, x), SerialByte(m, y), b);
    BitStepsInjective(Xor(m, Word(x)), Xor(m, Word(y)), 8);
    XorInjectiveRight(Word(x), Word(y), m);
    WordInjective(x, y);
  }

  lemma Passing(c: bv32, a: seq<byte>, x: byte, b: seq<byte>)
    ensures SerialBytes(c, a + [x] + b) == SerialBytes(SerialByte(SerialBytes(c, a), x), b)
  {
    SerialBytesConcat(c, a + [x], b);
    SerialBytesConcat(c, a, [x]);
    hide SerialByte;
    assert [x][1..] == [];
  }

  // ----- The check value -----

  lemma DigitStep(c: bv32, w: bv32, d: bv32)
    requires w <= 0xFF && EightSteps(c ^ w) == d
    ensures SerialByte(c, LowByte(w)) == d
  {
    WordOfLowByte(w);
    EightStepsUnrolled(c ^ w);
    hide EightSteps, BitSteps, LowByte, Word;
    assert w & 0xFF == w;
  }

  lemma Digits()
    ensures [LowByte(0x31), LowByte(0x32), LowByte(0x33), LowByte(0x34), LowByte(0x35), LowByte(0x36), LowByte(0x37),
             LowByte(0x38), LowByte(0x39)]
         == [0x31, 0x32, 0x33, 0x34, 0x35, 0x36, 0x37, 0x38, 0x39]
  {
  }

  lemma DigitSteps()
    ensures SerialByte(0xFFFFFFFF, 0x31) == 0x7C231048
    ensures SerialByte(0x7C231048, 0x32) == 0xB0ACBB32
    ensures SerialByte(0xB0ACBB32, 0x33) == 0x77B79C2D
    ensures SerialByte(0x77B79C2D, 0x34) == 0x641C1F5C
    ensures SerialByte(0x641C1F5C, 0x35) == 0x340AC5E3
    ensures SerialByte(0x340AC5E3, 0x36) == 0xF68D2C9E
    ensures SerialByte(0xF68D2C9E, 0x37) == 0xAFFC9660
    ensures SerialByte(0xAFFC9660, 0x38) == 0x651F2550
    ensures SerialByte(0x651F2550, 0x39) == 0x340BC6D9
  {
    Digits();
    DigitStep(0xFFFFFFFF, 0x31, 0x7C231048);
    DigitStep(0x7C231048, 0x32, 0xB0ACBB32);
    DigitStep(0xB0ACBB32, 0x33, 0x77B79C2D);
    DigitStep(0x77B79C2D, 0x34, 0x641C1F5C);
    DigitStep(0x641C1F5C, 0x35, 0x340AC5E3);
    DigitStep(0x340AC5E3, 0x36, 0xF68D2C9E);
    DigitStep(0xF68D2C9E, 0x37, 0xAFFC9660);
    DigitStep(0xAFFC9660, 0x38, 0x651F2550);
    DigitStep(0x651F2550, 0x39, 0x340BC6D9);
  }

  lemma NineBytes(c: bv32, s: seq<byte>)
    requires |s| == 9
    ensures SerialBytes(c, s) == SerialByte(SerialBytes(SerialBytes(c, s[..4]), s[4..8]), s[8])
  {
    hide SerialByte;
    assert s == s[..4] + (s[4..8] + [s[8]]);
    SerialBytesConcat(c, s[..4], s[4..8] + [s[8]]);
    SerialBytesConcat(SerialBytes(c, s[..4]), s[4..8], [s[8]]);
    assert [s[8]][1..] == [];
  }

  /** The checksum of the nine digits, as every implementation of CRC-32 gives it. */
  lemma CheckValue()
    ensures Crc(0, [0x31, 0x32, 0x33, 0x34, 0x35, 0x36, 0x37, 0x38, 0x39]) == 0xCBF4_3926
  {
    hide SerialByte, SerialBytes;
    DigitSteps();
    var s: seq<byte> := [0x31, 0x32, 0x33, 0x34, 0x35, 0x36, 0x37, 0x38, 0x39];
    NineBytes(0xFFFF_FFFF, s);
    FourSerialBytes(0xFFFF_FFFF, s[..4]);
    FourSerialBytes(0x641C_1F5C, s[4..8]);
  }
}
