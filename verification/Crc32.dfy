/** CRC-32 as Crc32_ComputeBuf computes it, against the bit-by-bit definition of section 8 of RFC 1952. */
module Crc32 {
  import opened Bytes

  const POLYNOMIAL: bv32 := 0xEDB8_8320
  const ALL_ONES: bv32 := 0xFFFF_FFFF

  // Bit-vector operators under names of their own, so that proofs about loops need not look at bits.

  function Xor(x: bv32, y: bv32): bv32 {
    x ^ y
  }

  function Shift8(x: bv32): bv32 {
    x >> 8
  }

  function Low8(x: bv32): (r: bv32)
    ensures r <= 0xFF
  {
    x & 0xFF
  }

  function Not(x: bv32): bv32 {
    x ^ ALL_ONES
  }

  // ----- The definition: one bit at a time -----

  function BitStep(c: bv32): bv32 {
    if c & 1 == 1 then (c >> 1) ^ POLYNOMIAL else c >> 1
  }

  function BitSteps(c: bv32, n: nat): bv32
    decreases n
  {
    if n == 0 then c else BitSteps(BitStep(c), n - 1)
  }

  function Word(b: byte): bv32 {
    (b as bv8) as bv32
  }

  function SerialByte(c: bv32, b: byte): bv32 {
    BitSteps(Xor(c, Word(b)), 8)
  }

  function SerialBytes(c: bv32, s: seq<byte>): bv32
    decreases |s|
  {
    if s == [] then c else SerialBytes(SerialByte(c, s[0]), s[1..])
  }

  /** The checksum of s, continued from the checksum c of what came before (0 at first). */
  function Crc(c: bv32, s: seq<byte>): bv32 {
    Not(SerialBytes(Not(c), s))
  }

  /** Eight bit steps, unrolled. */
  function EightSteps(c: bv32): bv32 {
    BitStep(BitStep(BitStep(BitStep(BitStep(BitStep(BitStep(BitStep(c))))))))
  }

  lemma EightStepsUnrolled(c: bv32)
    ensures BitSteps(c, 8) == EightSteps(c)
  {
    hide BitStep;
    var c4 := BitStep(BitStep(BitStep(BitStep(c))));
    assert BitSteps(c, 8) == BitSteps(BitStep(BitStep(c)), 6) == BitSteps(c4, 4);
    assert BitSteps(c4, 4) == BitSteps(BitStep(BitStep(c4)), 2);
  }

  // ----- crcTable, in rows of sixteen; each row is checked against eight bit steps -----

  function Row0(i: bv32): (e: bv32)
    requires i <= 0xF
    ensures e == EightSteps(0x00 | i)
  {
    match i
    case 0x0 => 0x00000000
    case 0x1 => 0x77073096
    case 0x2 => 0xEE0E612C
    case 0x3 => 0x990951BA
    case 0x4 => 0x076DC419
    case 0x5 => 0x706AF48F
    case 0x6 => 0xE963A535
    case 0x7 => 0x9E6495A3
    case 0x8 => 0x0EDB8832
    case 0x9 => 0x79DCB8A4
    case 0xA => 0xE0D5E91E
    case 0xB => 0x97D2D988
    case 0xC => 0x09B64C2B
    case 0xD => 0x7EB17CBD
    case 0xE => 0xE7B82D07
    case _ => 0x90BF1D91
  }

  function Row1(i: bv32): (e: bv32)
    requires i <= 0xF
    ensures e == EightSteps(0x10 | i)
  {
    match i
    case 0x0 => 0x1DB71064
    case 0x1 => 0x6AB020F2
    case 0x2 => 0xF3B97148
    case 0x3 => 0x84BE41DE
    case 0x4 => 0x1ADAD47D
    case 0x5 => 0x6DDDE4EB
    case 0x6 => 0xF4D4B551
    case 0x7 => 0x83D385C7
    case 0x8 => 0x136C9856
    case 0x9 => 0x646BA8C0
    case 0xA => 0xFD62F97A
    case 0xB => 0x8A65C9EC
    case 0xC => 0x14015C4F
    case 0xD => 0x63066CD9
    case 0xE => 0xFA0F3D63
    case _ => 0x8D080DF5
  }

  function Row2(i: bv32): (e: bv32)
    requires i <= 0xF
    ensures e == EightSteps(0x20 | i)
  {
    match i
    case 0x0 => 0x3B6E20C8
    case 0x1 => 0x4C69105E
    case 0x2 => 0xD56041E4
    case 0x3 => 0xA2677172
    case 0x4 => 0x3C03E4D1
    case 0x5 => 0x4B04D447
    case 0x6 => 0xD20D85FD
    case 0x7 => 0xA50AB56B
    case 0x8 => 0x35B5A8FA
    case 0x9 => 0x42B2986C
    case 0xA => 0xDBBBC9D6
    case 0xB => 0xACBCF940
    case 0xC => 0x32D86CE3
    case 0xD => 0x45DF5C75
    case 0xE => 0xDCD60DCF
    case _ => 0xABD13D59
  }

  function Row3(i: bv32): (e: bv32)
    requires i <= 0xF
    ensures e == EightSteps(0x30 | i)
  {
    match i
    case 0x0 => 0x26D930AC
    case 0x1 => 0x51DE003A
    case 0x2 => 0xC8D75180
    case 0x3 => 0xBFD06116
    case 0x4 => 0x21B4F4B5
    case 0x5 => 0x56B3C423
    case 0x6 => 0xCFBA9599
    case 0x7 => 0xB8BDA50F
    case 0x8 => 0x2802B89E
    case 0x9 => 0x5F058808
    case 0xA => 0xC60CD9B2
    case 0xB => 0xB10BE924
    case 0xC => 0x2F6F7C87
    case 0xD => 0x58684C11
    case 0xE => 0xC1611DAB
    case _ => 0xB6662D3D
  }

  function Row4(i: bv32): (e: bv32)
    requires i <= 0xF
    ensures e == EightSteps(0x40 | i)
  {
    match i
    case 0x0 => 0x76DC4190
    case 0x1 => 0x01DB7106
    case 0x2 => 0x98D220BC
    case 0x3 => 0xEFD5102A
    case 0x4 => 0x71B18589
    case 0x5 => 0x06B6B51F
    case 0x6 => 0x9FBFE4A5
    case 0x7 => 0xE8B8D433
    case 0x8 => 0x7807C9A2
    case 0x9 => 0x0F00F934
    case 0xA => 0x9609A88E
    case 0xB => 0xE10E9818
    case 0xC => 0x7F6A0DBB
    case 0xD => 0x086D3D2D
    case 0xE => 0x91646C97
    case _ => 0xE6635C01
  }

  function Row5(i: bv32): (e: bv32)
    requires i <= 0xF
    ensures e == EightSteps(0x50 | i)
  {
    match i
    case 0x0 => 0x6B6B51F4
    case 0x1 => 0x1C6C6162
    case 0x2 => 0x856530D8
    case 0x3 => 0xF262004E
    case 0x4 => 0x6C0695ED
    case 0x5 => 0x1B01A57B
    case 0x6 => 0x8208F4C1
    case 0x7 => 0xF50FC457
    case 0x8 => 0x65B0D9C6
    case 0x9 => 0x12B7E950
    case 0xA => 0x8BBEB8EA
    case 0xB => 0xFCB9887C
    case 0xC => 0x62DD1DDF
    case 0xD => 0x15DA2D49
    case 0xE => 0x8CD37CF3
    case _ => 0xFBD44C65
  }

  function Row6(i: bv32): (e: bv32)
    requires i <= 0xF
    ensures e == EightSteps(0x60 | i)
  {
    match i
    case 0x0 => 0x4DB26158
    case 0x1 => 0x3AB551CE
    case 0x2 => 0xA3BC0074
    case 0x3 => 0xD4BB30E2
    case 0x4 => 0x4ADFA541
    case 0x5 => 0x3DD895D7
    case 0x6 => 0xA4D1C46D
    case 0x7 => 0xD3D6F4FB
    case 0x8 => 0x4369E96A
    case 0x9 => 0x346ED9FC
    case 0xA => 0xAD678846
    case 0xB => 0xDA60B8D0
    case 0xC => 0x44042D73
    case 0xD => 0x33031DE5
    case 0xE => 0xAA0A4C5F
    case _ => 0xDD0D7CC9
  }

  function Row7(i: bv32): (e: bv32)
    requires i <= 0xF
    ensures e == EightSteps(0x70 | i)
  {
    match i
    case 0x0 => 0x5005713C
    case 0x1 => 0x270241AA
    case 0x2 => 0xBE0B1010
    case 0x3 => 0xC90C2086
    case 0x4 => 0x5768B525
    case 0x5 => 0x206F85B3
    case 0x6 => 0xB966D409
    case 0x7 => 0xCE61E49F
    case 0x8 => 0x5EDEF90E
    case 0x9 => 0x29D9C998
    case 0xA => 0xB0D09822
    case 0xB => 0xC7D7A8B4
    case 0xC => 0x59B33D17
    case 0xD => 0x2EB40D81
    case 0xE => 0xB7BD5C3B
    case _ => 0xC0BA6CAD
  }

  function Row8(i: bv32): (e: bv32)
    requires i <= 0xF
    ensures e == EightSteps(0x80 | i)
  {
    match i
    case 0x0 => 0xEDB88320
    case 0x1 => 0x9ABFB3B6
    case 0x2 => 0x03B6E20C
    case 0x3 => 0x74B1D29A
    case 0x4 => 0xEAD54739
    case 0x5 => 0x9DD277AF
    case 0x6 => 0x04DB2615
    case 0x7 => 0x73DC1683
    case 0x8 => 0xE3630B12
    case 0x9 => 0x94643B84
    case 0xA => 0x0D6D6A3E
    case 0xB => 0x7A6A5AA8
    case 0xC => 0xE40ECF0B
    case 0xD => 0x9309FF9D
    case 0xE => 0x0A00AE27
    case _ => 0x7D079EB1
  }

  function Row9(i: bv32): (e: bv32)
    requires i <= 0xF
    ensures e == EightSteps(0x90 | i)
  {
    match i
    case 0x0 => 0xF00F9344
    case 0x1 => 0x8708A3D2
    case 0x2 => 0x1E01F268
    case 0x3 => 0x6906C2FE
    case 0x4 => 0xF762575D
    case 0x5 => 0x806567CB
    case 0x6 => 0x196C3671
    case 0x7 => 0x6E6B06E7
    case 0x8 => 0xFED41B76
    case 0x9 => 0x89D32BE0
    case 0xA => 0x10DA7A5A
    case 0xB => 0x67DD4ACC
    case 0xC => 0xF9B9DF6F
    case 0xD => 0x8EBEEFF9
    case 0xE => 0x17B7BE43
    case _ => 0x60B08ED5
  }

  function RowA(i: bv32): (e: bv32)
    requires i <= 0xF
    ensures e == EightSteps(0xA0 | i)
  {
    match i
    case 0x0 => 0xD6D6A3E8
    case 0x1 => 0xA1D1937E
    case 0x2 => 0x38D8C2C4
    case 0x3 => 0x4FDFF252
    case 0x4 => 0xD1BB67F1
    case 0x5 => 0xA6BC5767
    case 0x6 => 0x3FB506DD
    case 0x7 => 0x48B2364B
    case 0x8 => 0xD80D2BDA
    case 0x9 => 0xAF0A1B4C
    case 0xA => 0x36034AF6
    case 0xB => 0x41047A60
    case 0xC => 0xDF60EFC3
    case 0xD => 0xA867DF55
    case 0xE => 0x316E8EEF
    case _ => 0x4669BE79
  }

  function RowB(i: bv32): (e: bv32)
    requires i <= 0xF
    ensures e == EightSteps(0xB0 | i)
  {
    match i
    case 0x0 => 0xCB61B38C
    case 0x1 => 0xBC66831A
    case 0x2 => 0x256FD2A0
    case 0x3 => 0x5268E236
    case 0x4 => 0xCC0C7795
    case 0x5 => 0xBB0B4703
    case 0x6 => 0x220216B9
    case 0x7 => 0x5505262F
    case 0x8 => 0xC5BA3BBE
    case 0x9 => 0xB2BD0B28
    case 0xA => 0x2BB45A92
    case 0xB => 0x5CB36A04
    case 0xC => 0xC2D7FFA7
    case 0xD => 0xB5D0CF31
    case 0xE => 0x2CD99E8B
    case _ => 0x5BDEAE1D
  }

  function RowC(i: bv32): (e: bv32)
    requires i <= 0xF
    ensures e == EightSteps(0xC0 | i)
  {
    match i
    case 0x0 => 0x9B64C2B0
    case 0x1 => 0xEC63F226
    case 0x2 => 0x756AA39C
    case 0x3 => 0x026D930A
    case 0x4 => 0x9C0906A9
    case 0x5 => 0xEB0E363F
    case 0x6 => 0x72076785
    case 0x7 => 0x05005713
    case 0x8 => 0x95BF4A82
    case 0x9 => 0xE2B87A14
    case 0xA => 0x7BB12BAE
    case 0xB => 0x0CB61B38
    case 0xC => 0x92D28E9B
    case 0xD => 0xE5D5BE0D
    case 0xE => 0x7CDCEFB7
    case _ => 0x0BDBDF21
  }

  function RowD(i: bv32): (e: bv32)
    requires i <= 0xF
    ensures e == EightSteps(0xD0 | i)
  {
    match i
    case 0x0 => 0x86D3D2D4
    case 0x1 => 0xF1D4E242
    case 0x2 => 0x68DDB3F8
    case 0x3 => 0x1FDA836E
    case 0x4 => 0x81BE16CD
    case 0x5 => 0xF6B9265B
    case 0x6 => 0x6FB077E1
    case 0x7 => 0x18B74777
    case 0x8 => 0x88085AE6
    case 0x9 => 0xFF0F6A70
    case 0xA => 0x66063BCA
    case 0xB => 0x11010B5C
    case 0xC => 0x8F659EFF
    case 0xD => 0xF862AE69
    case 0xE => 0x616BFFD3
    case _ => 0x166CCF45
  }

  function RowE(i: bv32): (e: bv32)
    requires i <= 0xF
    ensures e == EightSteps(0xE0 | i)
  {
    match i
    case 0x0 => 0xA00AE278
    case 0x1 => 0xD70DD2EE
    case 0x2 => 0x4E048354
    case 0x3 => 0x3903B3C2
    case 0x4 => 0xA7672661
    case 0x5 => 0xD06016F7
    case 0x6 => 0x4969474D
    case 0x7 => 0x3E6E77DB
    case 0x8 => 0xAED16A4A
    case 0x9 => 0xD9D65ADC
    case 0xA => 0x40DF0B66
    case 0xB => 0x37D83BF0
    case 0xC => 0xA9BCAE53
    case 0xD => 0xDEBB9EC5
    case 0xE => 0x47B2CF7F
    case _ => 0x30B5FFE9
  }

  function RowF(i: bv32): (e: bv32)
    requires i <= 0xF
    ensures e == EightSteps(0xF0 | i)
  {
    match i
    case 0x0 => 0xBDBDF21C
    case 0x1 => 0xCABAC28A
    case 0x2 => 0x53B39330
    case 0x3 => 0x24B4A3A6
    case 0x4 => 0xBAD03605
    case 0x5 => 0xCDD70693
    case 0x6 => 0x54DE5729
    case 0x7 => 0x23D967BF
    case 0x8 => 0xB3667A2E
    case 0x9 => 0xC4614AB8
    case 0xA => 0x5D681B02
    case 0xB => 0x2A6F2B94
    case 0xC => 0xB40BBE37
    case 0xD => 0xC30C8EA1
    case 0xE => 0x5A05DF1B
    case _ => 0x2D02EF8D
  }

  function TableEntry(i: bv32): (e: bv32)
    requires i <= 0xFF
    ensures e == EightSteps(i)
  {
    var low := i & 0xF;
    assert i == ((i >> 4) << 4) | low;
    match i >> 4
    case 0x0 => Row0(low)
    case 0x1 => Row1(low)
    case 0x2 => Row2(low)
    case 0x3 => Row3(low)
    case 0x4 => Row4(low)
    case 0x5 => Row5(low)
    case 0x6 => Row6(low)
    case 0x7 => Row7(low)
    case 0x8 => Row8(low)
    case 0x9 => Row9(low)
    case 0xA => RowA(low)
    case 0xB => RowB(low)
    case 0xC => RowC(low)
    case 0xD => RowD(low)
    case 0xE => RowE(low)
    case _ => RowF(low)
  }

  lemma ShiftXor(x: bv32, y: bv32)
    ensures (x ^ y) >> 1 == (x >> 1) ^ (y >> 1) && (x ^ y) & 1 == (x & 1) ^ (y & 1)
  {
  }

  lemma XorRearranged(a: bv32, b: bv32, p: bv32)
    ensures (a ^ p) ^ b == (a ^ b) ^ p == a ^ (b ^ p) && (a ^ p) ^ (b ^ p) == a ^ b
  {
  }

  lemma LowBit(x: bv32)
    ensures x & 1 == 0 || x & 1 == 1
  {
  }

  lemma BitStepLinearBits(x: bv32, y: bv32)
    ensures BitStep(x ^ y) == BitStep(x) ^ BitStep(y)
  {
    ShiftXor(x, y);
    LowBit(x);
    LowBit(y);
    XorRearranged(x >> 1, y >> 1, POLYNOMIAL);
  }

  lemma BitStepLinear(x: bv32, y: bv32)
    ensures BitStep(Xor(x, y)) == Xor(BitStep(x), BitStep(y))
  {
    hide BitStep;
    BitStepLinearBits(x, y);
  }

  lemma {:induction false} BitStepsLinear(x: bv32, y: bv32, n: nat)
    ensures BitSteps(Xor(x, y), n) == Xor(BitSteps(x, n), BitSteps(y, n))
    decreases n
  {
    hide BitStep, Xor;
    if n > 0 {
      BitStepLinear(x, y);
      BitStepsLinear(BitStep(x), BitStep(y), n - 1);
    }
  }

  /** The part of a word above its low byte. */
  function High24(x: bv32): bv32 {
    x & 0xFFFF_FF00
  }

  lemma SplitWord(c: bv32, w: bv32)
    requires w <= 0xFF
    ensures var x := Xor(c, w); x == Xor(Low8(x), High24(x)) && Shift8(High24(x)) == Shift8(c)
  {
  }

  lemma HighBitsShift(x: bv32)
    requires x & 0xFF == 0
    ensures EightSteps(x) == x >> 8
  {
  }

  lemma HighIsClear(x: bv32)
    ensures High24(x) & 0xFF == 0
  {
  }

  /** Bits above the lowest eight only move down. */
  lemma HighSteps(x: bv32)
    ensures EightSteps(High24(x)) == Shift8(High24(x))
  {
    hide High24, EightSteps;
    HighIsClear(x);
    HighBitsShift(High24(x));
  }

  lemma WordIsByte(b: byte)
    ensures Word(b) <= 0xFF
  {
  }

  lemma XorCommutes(a: bv32, b: bv32)
    ensures Xor(a, b) == Xor(b, a)
  {
  }

  /** The body of the loop. */
  function TableStep(c: bv32, b: byte): bv32 {
    Xor(Shift8(c), TableEntry(Low8(Xor(c, Word(b)))))
  }

  /** One table look-up does the work of eight bit steps. */
  lemma TableStepIsSerial(c: bv32, b: byte)
    ensures TableStep(c, b) == SerialByte(c, b)
  {
    WordIsByte(b);
    hide EightSteps, TableEntry, BitSteps, Word, Xor, Low8, High24, Shift8;
    var x := Xor(c, Word(b));
    SplitWord(c, Word(b));
    BitStepsLinear(Low8(x), High24(x), 8);
    EightStepsUnrolled(Low8(x));
    EightStepsUnrolled(High24(x));
    HighSteps(x);
    XorCommutes(TableEntry(Low8(x)), Shift8(c));
  }

  /** Crc32_ComputeBuf: the table-driven loop computes the bit-by-bit checksum of any buffer. */
  method ComputeBuf(inCrc32: bv32, buf: seq<byte>) returns (r: bv32)
    ensures r == Crc(inCrc32, buf)
  {
    hide TableStep, SerialByte, Not;
    var crc32 := Not(inCrc32);
    var i := 0;
    assert buf[0..] == buf;
    while i < |buf|
      invariant 0 <= i <= |buf|
      invariant SerialBytes(Not(inCrc32), buf) == SerialBytes(crc32, buf[i..])
    {
      TableStepIsSerial(crc32, buf[i]);
      assert buf[i..][1..] == buf[i + 1..];
      crc32 := TableStep(crc32, buf[i]);
      i := i + 1;
    }
    r := Not(crc32);
  }

  lemma {:induction false} SerialBytesConcat(c: bv32, a: seq<byte>, b: seq<byte>)
    ensures SerialBytes(c, a + b) == SerialBytes(SerialBytes(c, a), b)
    decreases |a|
  {
    hide SerialByte;
    if a == [] {
      assert a + b == b;
    } else {
      assert (a + b)[1..] == a[1..] + b;
      SerialBytesConcat(SerialByte(c, a[0]), a[1..], b);
    }
  }

  lemma NotNot(m: bv32)
    ensures Not(Not(m)) == m
  {
  }

  /** Chunk independence: continuing a checksum over b is the checksum of both pieces together. */
  lemma CrcConcat(c: bv32, a: seq<byte>, b: seq<byte>)
    ensures Crc(Crc(c, a), b) == Crc(c, a + b)
  {
    hide SerialBytes, Not;
    SerialBytesConcat(Not(c), a, b);
    NotNot(SerialBytes(Not(c), a));
  }

  lemma CrcNothing(c: bv32)
    ensures Crc(c, []) == c
  {
    NotNot(c);
  }
}
