/** Code points that may be displayed: the table of unicode-allowlist-table.c, in blocks of twenty ranges.
    Each block states the interval it covers, which is all that the proofs need of it. */
module Allowlist {
  predicate Block0(cp: int)
    ensures Block0(cp) ==> 0x20 <= cp <= 0x52F
  {
    || 0x20 <= cp <= 0x7E
    || 0xA1 <= cp <= 0xA5
    || cp == 0xA7
    || 0xAA <= cp <= 0xAC
    || 0xB1 <= cp <= 0xB3
    || 0xB5 <= cp <= 0xB7
    || 0xB9 <= cp <= 0x2C1
    || 0x2C6 <= cp <= 0x2D1
    || 0x2E0 <= cp <= 0x2E4
    || cp == 0x2EC
    || cp == 0x2EE
    || 0x370 <= cp <= 0x374
    || 0x376 <= cp <= 0x377
    || 0x37A <= cp <= 0x37F
    || 0x386 <= cp <= 0x38A
    || cp == 0x38C
    || 0x38E <= cp <= 0x3A1
    || 0x3A3 <= cp <= 0x3E1
    || 0x3F0 <= cp <= 0x481
    || 0x48A <= cp <= 0x52F
  }

  predicate Block1(cp: int)
    ensures Block1(cp) ==> 0x60C <= cp <= 0x1F4D
  {
    || cp == 0x60C
    || 0x964 <= cp <= 0x965
    || cp == 0xE3F
    || cp == 0x10FB
    || 0x1100 <= cp <= 0x11FF
    || 0x16EB <= cp <= 0x16ED
    || 0x1735 <= cp <= 0x1736
    || 0x1802 <= cp <= 0x1803
    || cp == 0x1805
    || 0x1C80 <= cp <= 0x1C88
    || cp == 0x1CD3
    || 0x1CE9 <= cp <= 0x1CEC
    || 0x1CEE <= cp <= 0x1CF3
    || 0x1CF5 <= cp <= 0x1CF6
    || cp == 0x1CFA
    || 0x1D00 <= cp <= 0x1DBF
    || 0x1E00 <= cp <= 0x1F15
    || 0x1F18 <= cp <= 0x1F1D
    || 0x1F20 <= cp <= 0x1F45
    || 0x1F48 <= cp <= 0x1F4D
  }

  predicate Block2(cp: int)
    ensures Block2(cp) ==> 0x1F50 <= cp <= 0x209C
  {
    || 0x1F50 <= cp <= 0x1F57
    || cp == 0x1F59
    || cp == 0x1F5B
    || cp == 0x1F5D
    || 0x1F5F <= cp <= 0x1F7D
    || 0x1F80 <= cp <= 0x1FB4
    || 0x1FB6 <= cp <= 0x1FBC
    || cp == 0x1FBE
    || 0x1FC2 <= cp <= 0x1FC4
    || 0x1FC6 <= cp <= 0x1FCC
    || 0x1FD0 <= cp <= 0x1FD3
    || 0x1FD6 <= cp <= 0x1FDB
    || 0x1FE0 <= cp <= 0x1FEC
    || 0x1FF2 <= cp <= 0x1FF4
    || 0x1FF6 <= cp <= 0x1FFC
    || 0x2010 <= cp <= 0x2027
    || 0x2030 <= cp <= 0x205E
    || 0x2070 <= cp <= 0x2071
    || 0x2074 <= cp <= 0x208E
    || 0x2090 <= cp <= 0x209C
  }

  predicate Block3(cp: int)
    ensures Block3(cp) ==> 0x20A0 <= cp <= 0x21A6
  {
    || 0x20A0 <= cp <= 0x20C0
    || cp == 0x2102
    || cp == 0x2107
    || 0x210A <= cp <= 0x2113
    || cp == 0x2115
    || 0x2118 <= cp <= 0x211D
    || cp == 0x2124
    || cp == 0x2126
    || cp == 0x2128
    || 0x212A <= cp <= 0x212D
    || 0x212F <= cp <= 0x2139
    || 0x213C <= cp <= 0x2149
    || cp == 0x214B
    || cp == 0x214E
    || 0x2150 <= cp <= 0x2189
    || 0x2190 <= cp <= 0x2194
    || 0x219A <= cp <= 0x219B
    || cp == 0x21A0
    || cp == 0x21A3
    || cp == 0x21A6
  }

  predicate Block4(cp: int)
    ensures Block4(cp) ==> 0x21AE <= cp <= 0x2AFF
  {
    || cp == 0x21AE
    || 0x21CE <= cp <= 0x21CF
    || cp == 0x21D2
    || cp == 0x21D4
    || 0x21F4 <= cp <= 0x22FF
    || 0x2308 <= cp <= 0x230B
    || 0x2320 <= cp <= 0x2321
    || 0x2329 <= cp <= 0x232A
    || cp == 0x237C
    || 0x239B <= cp <= 0x23B3
    || 0x23DC <= cp <= 0x23E1
    || 0x2460 <= cp <= 0x249B
    || 0x24EA <= cp <= 0x24FF
    || cp == 0x25B7
    || cp == 0x25C1
    || 0x25F8 <= cp <= 0x25FF
    || cp == 0x266F
    || 0x2768 <= cp <= 0x2793
    || 0x27C0 <= cp <= 0x27FF
    || 0x2900 <= cp <= 0x2AFF
  }

  predicate Block5(cp: int)
    ensures Block5(cp) ==> 0x2B30 <= cp <= 0x324F
  {
    || 0x2B30 <= cp <= 0x2B44
    || 0x2B47 <= cp <= 0x2B4C
    || 0x2C60 <= cp <= 0x2C7F
    || 0x2E00 <= cp <= 0x2E4F
    || 0x2E52 <= cp <= 0x2E5D
    || 0x3001 <= cp <= 0x3003
    || 0x3005 <= cp <= 0x3011
    || 0x3014 <= cp <= 0x301F
    || 0x3021 <= cp <= 0x3029
    || 0x3030 <= cp <= 0x3035
    || 0x3038 <= cp <= 0x303D
    || 0x3041 <= cp <= 0x3096
    || 0x309D <= cp <= 0x30FF
    || 0x3105 <= cp <= 0x312F
    || 0x3131 <= cp <= 0x318E
    || 0x3192 <= cp <= 0x3195
    || 0x31A0 <= cp <= 0x31BF
    || 0x31F0 <= cp <= 0x31FF
    || 0x3220 <= cp <= 0x3229
    || 0x3248 <= cp <= 0x324F
  }

  predicate Block6(cp: int)
    ensures Block6(cp) ==> 0x3251 <= cp <= 0xA9CF
  {
    || 0x3251 <= cp <= 0x325F
    || 0x3280 <= cp <= 0x3289
    || 0x32B1 <= cp <= 0x32BF
    || 0x3400 <= cp <= 0x4DBF
    || 0x4E00 <= cp <= 0x9FFF
    || 0xA640 <= cp <= 0xA66E
    || cp == 0xA673
    || 0xA67E <= cp <= 0xA69D
    || 0xA717 <= cp <= 0xA71F
    || 0xA722 <= cp <= 0xA788
    || 0xA78B <= cp <= 0xA7CA
    || 0xA7D0 <= cp <= 0xA7D1
    || cp == 0xA7D3
    || 0xA7D5 <= cp <= 0xA7D9
    || 0xA7F2 <= cp <= 0xA7FF
    || 0xA830 <= cp <= 0xA835
    || cp == 0xA838
    || cp == 0xA92E
    || 0xA960 <= cp <= 0xA97C
    || cp == 0xA9CF
  }

  predicate Block7(cp: int)
    ensures Block7(cp) ==> 0xAB30 <= cp <= 0xFFDC
    ensures Block7(cp) ==> cp < 0xD800 || 0xDFFF < cp
  {
    || 0xAB30 <= cp <= 0xAB5A
    || 0xAB5C <= cp <= 0xAB69
    || 0xAC00 <= cp <= 0xD7A3
    || 0xD7B0 <= cp <= 0xD7C6
    || 0xD7CB <= cp <= 0xD7FB
    || 0xF900 <= cp <= 0xFA6D
    || 0xFA70 <= cp <= 0xFAD9
    || 0xFB00 <= cp <= 0xFB06
    || 0xFD3E <= cp <= 0xFD3F
    || 0xFE10 <= cp <= 0xFE19
    || 0xFE30 <= cp <= 0xFE52
    || 0xFE54 <= cp <= 0xFE66
    || 0xFE68 <= cp <= 0xFE6B
    || 0xFF01 <= cp <= 0xFF3D
    || cp == 0xFF3F
    || 0xFF41 <= cp <= 0xFFBE
    || 0xFFC2 <= cp <= 0xFFC7
    || 0xFFCA <= cp <= 0xFFCF
    || 0xFFD2 <= cp <= 0xFFD7
    || 0xFFDA <= cp <= 0xFFDC
  }

  predicate Block8(cp: int)
    ensures Block8(cp) ==> 0xFFE0 <= cp <= 0x1B167
  {
    || 0xFFE0 <= cp <= 0xFFE2
    || 0xFFE5 <= cp <= 0xFFE6
    || 0xFFE9 <= cp <= 0xFFEC
    || 0x10100 <= cp <= 0x10102
    || 0x10107 <= cp <= 0x10133
    || 0x10140 <= cp <= 0x10178
    || 0x1018A <= cp <= 0x1018B
    || 0x102E1 <= cp <= 0x102FB
    || 0x10780 <= cp <= 0x10785
    || 0x10787 <= cp <= 0x107B0
    || 0x107B2 <= cp <= 0x107BA
    || 0x16FE2 <= cp <= 0x16FE3
    || 0x1AFF0 <= cp <= 0x1AFF3
    || 0x1AFF5 <= cp <= 0x1AFFB
    || 0x1AFFD <= cp <= 0x1AFFE
    || 0x1B000 <= cp <= 0x1B122
    || cp == 0x1B132
    || 0x1B150 <= cp <= 0x1B152
    || cp == 0x1B155
    || 0x1B164 <= cp <= 0x1B167
  }

  predicate Block9(cp: int)
    ensures Block9(cp) ==> 0x1D2C0 <= cp <= 0x1D546
  {
    || 0x1D2C0 <= cp <= 0x1D2D3
    || 0x1D2E0 <= cp <= 0x1D2F3
    || 0x1D360 <= cp <= 0x1D378
    || 0x1D400 <= cp <= 0x1D454
    || 0x1D456 <= cp <= 0x1D49C
    || 0x1D49E <= cp <= 0x1D49F
    || cp == 0x1D4A2
    || 0x1D4A5 <= cp <= 0x1D4A6
    || 0x1D4A9 <= cp <= 0x1D4AC
    || 0x1D4AE <= cp <= 0x1D4B9
    || cp == 0x1D4BB
    || 0x1D4BD <= cp <= 0x1D4C3
    || 0x1D4C5 <= cp <= 0x1D505
    || 0x1D507 <= cp <= 0x1D50A
    || 0x1D50D <= cp <= 0x1D514
    || 0x1D516 <= cp <= 0x1D51C
    || 0x1D51E <= cp <= 0x1D539
    || 0x1D53B <= cp <= 0x1D53E
    || 0x1D540 <= cp <= 0x1D544
    || cp == 0x1D546
  }

  predicate Block10(cp: int)
    ensures Block10(cp) ==> 0x1D54A <= cp <= 0x323AF
  {
    || 0x1D54A <= cp <= 0x1D550
    || 0x1D552 <= cp <= 0x1D6A5
    || 0x1D6A8 <= cp <= 0x1D7CB
    || 0x1D7CE <= cp <= 0x1D7FF
    || 0x1DF00 <= cp <= 0x1DF1E
    || 0x1DF25 <= cp <= 0x1DF2A
    || 0x1E030 <= cp <= 0x1E06D
    || 0x1F100 <= cp <= 0x1F10C
    || 0x1FBF0 <= cp <= 0x1FBF9
    || 0x20000 <= cp <= 0x2A6DF
    || 0x2A700 <= cp <= 0x2B739
    || 0x2B740 <= cp <= 0x2B81D
    || 0x2B820 <= cp <= 0x2CEA1
    || 0x2CEB0 <= cp <= 0x2EBE0
    || 0x2F800 <= cp <= 0x2FA1D
    || 0x30000 <= cp <= 0x3134A
    || 0x31350 <= cp <= 0x323AF
  }

  /** qubes_pure_code_point_safe_for_display */
  predicate SafeForDisplay(cp: int)
    ensures SafeForDisplay(cp) ==> 0x20 <= cp <= 0x10FFFF
    ensures SafeForDisplay(cp) ==> !(0xD800 <= cp <= 0xDFFF)
    ensures 0x20 <= cp <= 0x7E ==> SafeForDisplay(cp)
    ensures 0x7F <= cp <= 0xA0 ==> !SafeForDisplay(cp)
  {
    || Block0(cp) || Block1(cp) || Block2(cp) || Block3(cp) || Block4(cp) || Block5(cp)
    || Block6(cp) || Block7(cp) || Block8(cp) || Block9(cp) || Block10(cp)
  }
}
