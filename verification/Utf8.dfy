/** The UTF-8 character validator: a looser grammar than RFC 3629, closed again by the allowlist. */
module Utf8 {
  import opened Bytes
  import opened Allowlist

  /** A C string: one NUL, at the end. */
  predicate CString(s: seq<byte>) {
    |s| > 0 && s[|s| - 1] == 0 && forall i :: 0 <= i < |s| - 1 ==> s[i] != 0
  }

  predicate IsTail(b: byte) {
    0x80 <= b <= 0xBF
  }

  /** The payload of a tail byte: its low six bits. */
  function Low6(b: int): int {
    b % 64
  }

  function Judge(cp: int, total: int): int {
    if SafeForDisplay(cp) then total else -total
  }

  /** The tail loop: n more continuation bytes from index k, onto the bits already in cp. */
  function Tails(s: seq<byte>, k: nat, n: nat, cp: int, total: int): int
    requires CString(s) && k < |s|
    decreases n
  {
    if n == 0 then Judge(cp, total)
    else if IsTail(s[k]) then Tails(s, k + 1, n - 1, cp * 64 + Low6(s[k]), total)
    else -1
  }

  /** validate_utf8_char_and_return_len: length of the safe character at index i, or minus the number of bytes
      to skip. No byte behind the terminating NUL is looked at. */
  function CharLen(s: seq<byte>, i: nat): int
    requires CString(s) && i < |s|
  {
    var b := s[i];
    if 0xC2 <= b <= 0xDF then Tails(s, i + 1, 1, b % 32, 2)
    else if b == 0xE0 then if 0xA0 <= s[i + 1] <= 0xBF then Tails(s, i + 2, 1, Low6(s[i + 1]), 3) else -1
    else if 0xE1 <= b <= 0xEF then Tails(s, i + 1, 2, b % 16, 3)
    else if b == 0xF0 then if 0x90 <= s[i + 1] <= 0xBF then Tails(s, i + 2, 2, Low6(s[i + 1]), 4) else -1
    else if 0xF1 <= b <= 0xF4 then Tails(s, i + 1, 3, b % 8, 4)
    else -1
  }

  /** The switch and the loop as written. */
  method ValidateChar(s: seq<byte>, i: nat) returns (r: int)
    requires CString(s) && i < |s|
    ensures r == CharLen(s, i)
  {
    hide SafeForDisplay;
    var c, tails, total := i, 0, 0;
    var cp: int := 0;
    if 0xC2 <= s[c] <= 0xDF {
      total, tails, cp := 2, 1, s[c] % 32;
    } else if s[c] == 0xE0 {
      c := c + 1;
      total := 3;
      if !(0xA0 <= s[c] <= 0xBF) {
        return -1;
      }
      tails, cp := 1, Low6(s[c]);
    } else if 0xE1 <= s[c] <= 0xEF {
      total, tails, cp := 3, 2, s[c] % 16;
    } else if s[c] == 0xF0 {
      c := c + 1;
      total := 4;
      if !(0x90 <= s[c] <= 0xBF) {
        return -1;
      }
      tails, cp := 2, Low6(s[c]);
    } else if 0xF1 <= s[c] <= 0xF4 {
      total, tails, cp := 4, 3, s[c] % 8;
    } else {
      return -1;
    }
    while tails > 0
      invariant 0 <= tails && i <= c && c + 1 < |s|
      invariant CharLen(s, i) == Tails(s, c + 1, tails, cp, total)
    {
      c := c + 1;
      if !IsTail(s[c]) {
        return -1;
      }
      cp := cp * 64 + Low6(s[c]);
      tails := tails - 1;
    }
    r := Judge(cp, total);
  }

  // ----- RFC 3629 -----

  predicate Scalar(cp: int) {
    0 <= cp <= 0x10FFFF && !(0xD800 <= cp <= 0xDFFF)
  }

  /** Section 3 of RFC 3629: six bits to each tail byte, the rest to the lead byte. */
  function Encode(cp: int): (b: seq<byte>)
    requires Scalar(cp)
    ensures 1 <= |b| <= 4
  {
    var q := cp / 64;
    var r := q / 64;
    if cp < 0x80 then [cp]
    else if cp < 0x800 then [0xC0 + q, 0x80 + Low6(cp)]
    else if cp < 0x10000 then [0xE0 + r, 0x80 + Low6(q), 0x80 + Low6(cp)]
    else [0xF0 + r / 64, 0x80 + Low6(r), 0x80 + Low6(q), 0x80 + Low6(cp)]
  }

  /** The grammar of section 4 of RFC 3629 for one character. */
  predicate Utf8Char(b: seq<byte>) {
    || (|b| == 1 && b[0] <= 0x7F)
    || (|b| == 2 && 0xC2 <= b[0] <= 0xDF && IsTail(b[1]))
    || (|b| == 3 && b[0] == 0xE0 && 0xA0 <= b[1] <= 0xBF && IsTail(b[2]))
    || (|b| == 3 && 0xE1 <= b[0] <= 0xEC && IsTail(b[1]) && IsTail(b[2]))
    || (|b| == 3 && b[0] == 0xED && 0x80 <= b[1] <= 0x9F && IsTail(b[2]))
    || (|b| == 3 && 0xEE <= b[0] <= 0xEF && IsTail(b[1]) && IsTail(b[2]))
    || (|b| == 4 && b[0] == 0xF0 && 0x90 <= b[1] <= 0xBF && IsTail(b[2]) && IsTail(b[3]))
    || (|b| == 4 && 0xF1 <= b[0] <= 0xF3 && IsTail(b[1]) && IsTail(b[2]) && IsTail(b[3]))
    || (|b| == 4 && b[0] == 0xF4 && 0x80 <= b[1] <= 0x8F && IsTail(b[2]) && IsTail(b[3]))
  }

  /** The multi-byte part of the looser grammar in the comment at line 42. */
  predicate LooseChar(b: seq<byte>) {
    || (|b| == 2 && 0xC2 <= b[0] <= 0xDF && IsTail(b[1]))
    || (|b| == 3 && b[0] == 0xE0 && 0xA0 <= b[1] <= 0xBF && IsTail(b[2]))
    || (|b| == 3 && 0xE1 <= b[0] <= 0xEF && IsTail(b[1]) && IsTail(b[2]))
    || (|b| == 4 && b[0] == 0xF0 && 0x90 <= b[1] <= 0xBF && IsTail(b[2]) && IsTail(b[3]))
    || (|b| == 4 && 0xF1 <= b[0] <= 0xF4 && IsTail(b[1]) && IsTail(b[2]) && IsTail(b[3]))
  }

  /** The number spelt by the payload bits of a character. */
  function Decode(b: seq<byte>): (cp: int)
    requires 1 <= |b| <= 4
  {
    if |b| == 1 then b[0]
    else if |b| == 2 then Lead(b[0], 32) * 64 + Low6(b[1])
    else if |b| == 3 then (Lead(b[0], 16) * 64 + Low6(b[1])) * 64 + Low6(b[2])
    else ((Lead(b[0], 8) * 64 + Low6(b[1])) * 64 + Low6(b[2])) * 64 + Low6(b[3])
  }

  function Lead(b: int, m: int): int
    requires m == 8 || m == 16 || m == 32
  {
    if m == 8 then b % 8 else if m == 16 then b % 16 else b % 32
  }

  lemma Encode3(cp: int)
    requires Scalar(cp) && 0x800 <= cp < 0x10000
    ensures Utf8Char(Encode(cp)) && Decode(Encode(cp)) == cp
  {
    var q := cp / 64;
    var r := q / 64;
    hide Low6;
    SplitSix(cp);
    SplitSix(q);
    assert 0 <= r < 16;
    TailByte(Low6(q));
    TailByte(Low6(cp));
  }

  lemma Encode4(cp: int)
    requires Scalar(cp) && 0x10000 <= cp
    ensures Utf8Char(Encode(cp)) && Decode(Encode(cp)) == cp
  {
    var q := cp / 64;
    var r := q / 64;
    hide Low6;
    SplitSix(cp);
    SplitSix(q);
    SplitSix(r);
    assert 0 <= r / 64 <= 4;
    TailByte(Low6(r));
    TailByte(Low6(q));
    TailByte(Low6(cp));
  }

  lemma SplitSix(x: int)
    requires 0 <= x
    ensures x == 64 * (x / 64) + Low6(x) && 0 <= Low6(x) < 64
  {
  }

  lemma TailByte(x: int)
    requires 0 <= x < 64
    ensures Low6(0x80 + x) == x
  {
  }

  /** Encoding and decoding are inverse to each other, and sections 3 and 4 describe the same strings. */
  lemma EncodeDecodes(cp: int)
    requires Scalar(cp)
    ensures Utf8Char(Encode(cp)) && Decode(Encode(cp)) == cp
  {
    if 0x80 <= cp < 0x800 {
      SplitSix(cp);
      TailByte(Low6(cp));
    } else if 0x800 <= cp < 0x10000 {
      Encode3(cp);
    } else if 0x10000 <= cp {
      Encode4(cp);
    }
  }

  lemma Decode3(b: seq<byte>)
    requires Utf8Char(b) && |b| == 3
    ensures Scalar(Decode(b)) && Encode(Decode(b)) == b
  {
    var r, m, l := Lead(b[0], 16), Low6(b[1]), Low6(b[2]);
    assert r == b[0] - 0xE0 && m == b[1] - 0x80 && l == b[2] - 0x80;
    hide Low6, Lead;
    Horner(r, m);
    Horner(r * 64 + m, l);
    var cp := Decode(b);
    assert cp == 4096 * r + 64 * m + l && 0x800 <= cp < 0x10000;
  }

  lemma Decode4(b: seq<byte>)
    requires Utf8Char(b) && |b| == 4
    ensures Scalar(Decode(b)) && Encode(Decode(b)) == b
  {
    var u, r, m, l := Lead(b[0], 8), Low6(b[1]), Low6(b[2]), Low6(b[3]);
    assert u == b[0] - 0xF0 && r == b[1] - 0x80 && m == b[2] - 0x80 && l == b[3] - 0x80;
    hide Low6, Lead;
    Horner(u, r);
    Horner(u * 64 + r, m);
    Horner((u * 64 + r) * 64 + m, l);
    var cp := Decode(b);
    assert cp == 262144 * u + 4096 * r + 64 * m + l && 0x10000 <= cp < 0x110000;
  }

  lemma DecodeEncodes(b: seq<byte>)
    requires Utf8Char(b)
    ensures Scalar(Decode(b)) && Encode(Decode(b)) == b
  {
    if |b| == 2 {
      Horner(Lead(b[0], 32), Low6(b[1]));
    } else if |b| == 3 {
      Decode3(b);
    } else if |b| == 4 {
      Decode4(b);
    }
  }

  lemma Horner(high: int, low: int)
    requires 0 <= high && 0 <= low < 64
    ensures (high * 64 + low) / 64 == high && Low6(high * 64 + low) == low
  {
  }

  /** The loose grammar admits nothing that is safe to display beyond RFC 3629. */
  lemma LooseAndSafeIsUtf8(b: seq<byte>)
    requires LooseChar(b) && SafeForDisplay(Decode(b))
    ensures Utf8Char(b)
  {
    hide SafeForDisplay;
  }

  /** A loose character occupies [i, i + n) of s. */
  predicate LooseAt(s: seq<byte>, i: nat, n: nat) {
    i + n <= |s| && LooseChar(s[i..i + n])
  }

  lemma {:induction false} TailsValue(s: seq<byte>, k: nat, n: nat, cp: int, total: int)
    requires CString(s) && k + n < |s| && 1 <= n <= 3
    requires forall m :: k <= m < k + n ==> IsTail(s[m])
    ensures n == 1 ==> Tails(s, k, n, cp, total) == Judge(cp * 64 + Low6(s[k]), total)
    ensures n == 2 ==> Tails(s, k, n, cp, total) == Judge((cp * 64 + Low6(s[k])) * 64 + Low6(s[k + 1]), total)
    ensures n == 3 ==>
      Tails(s, k, n, cp, total) == Judge(((cp * 64 + Low6(s[k])) * 64 + Low6(s[k + 1])) * 64 + Low6(s[k + 2]), total)
    decreases n
  {
    hide SafeForDisplay;
    if n > 1 {
      TailsValue(s, k + 1, n - 1, cp * 64 + Low6(s[k]), total);
    }
  }

  lemma {:induction false} TailsMissing(s: seq<byte>, k: nat, n: nat, cp: int, total: int)
    requires CString(s) && k < |s| && 1 <= n <= 3
    requires !(k + n < |s| && forall m :: k <= m < k + n ==> IsTail(s[m]))
    ensures Tails(s, k, n, cp, total) == -1
    decreases n
  {
    hide SafeForDisplay;
    if n > 1 && IsTail(s[k]) {
      TailsMissing(s, k + 1, n - 1, cp * 64 + Low6(s[k]), total);
    }
  }

  /** Where a loose character starts, the verdict is its length, signed by the allowlist. */
  lemma CharLenOfLoose(s: seq<byte>, i: nat, n: nat)
    requires CString(s) && i < |s| && LooseAt(s, i, n)
    ensures 2 <= n <= 4 && i + n < |s|
    ensures CharLen(s, i) == Judge(Decode(s[i..i + n]), n)
  {
    hide SafeForDisplay;
    var b := s[i..i + n];
    assert forall m :: 0 <= m < n ==> b[m] == s[i + m];
    if b[0] == 0xE0 || b[0] == 0xF0 {
      TailsValue(s, i + 2, n - 2, Low6(s[i + 1]), n);
    } else {
      TailsValue(s, i + 1, n - 1, if n == 2 then s[i] % 32 else if n == 3 then s[i] % 16 else s[i] % 8, n);
    }
  }

  /** Everywhere else one byte is skipped. */
  lemma CharLenOtherwise(s: seq<byte>, i: nat)
    requires CString(s) && i < |s|
    requires forall n :: 2 <= n <= 4 ==> !LooseAt(s, i, n)
    ensures CharLen(s, i) == -1
  {
    hide SafeForDisplay;
    var b := s[i];
    assert !LooseAt(s, i, 2) && !LooseAt(s, i, 3) && !LooseAt(s, i, 4);
    if 0xC2 <= b <= 0xDF {
      TailsMissing(s, i + 1, 1, b % 32, 2);
    } else if b == 0xE0 && 0xA0 <= s[i + 1] <= 0xBF {
      TailsMissing(s, i + 2, 1, Low6(s[i + 1]), 3);
    } else if 0xE1 <= b <= 0xEF {
      TailsMissing(s, i + 1, 2, b % 16, 3);
    } else if b == 0xF0 && 0x90 <= s[i + 1] <= 0xBF {
      TailsMissing(s, i + 2, 2, Low6(s[i + 1]), 4);
    } else if 0xF1 <= b <= 0xF4 {
      TailsMissing(s, i + 1, 3, b % 8, 4);
    }
  }

  /** Soundness: a positive verdict n means that the next n bytes are the RFC 3629 encoding of exactly one code
      point, that this code point is on the allowlist, and that it is not ASCII. */
  lemma AcceptedIsRfc3629(s: seq<byte>, i: nat)
    requires CString(s) && i < |s| && CharLen(s, i) > 0
    ensures var n := CharLen(s, i);
            && 2 <= n <= 4 && i + n < |s|
            && Scalar(Decode(s[i..i + n])) && SafeForDisplay(Decode(s[i..i + n])) && Decode(s[i..i + n]) >= 0x80
            && s[i..i + n] == Encode(Decode(s[i..i + n]))
            && (forall cp :: Scalar(cp) && Encode(cp) == s[i..i + n] ==> cp == Decode(s[i..i + n]))
  {
    hide SafeForDisplay, CharLen;
    if forall n :: 2 <= n <= 4 ==> !LooseAt(s, i, n) {
      CharLenOtherwise(s, i);
    } else {
      var n :| 2 <= n <= 4 && LooseAt(s, i, n);
      CharLenOfLoose(s, i, n);
      var b := s[i..i + n];
      LooseAndSafeIsUtf8(b);
      DecodeEncodes(b);
      forall cp | Scalar(cp) && Encode(cp) == b ensures cp == Decode(b) {
        EncodeDecodes(cp);
      }
    }
  }

  /** Completeness: the encoding of every allowlisted code point outside ASCII is accepted, whatever follows. */
  lemma AllowlistedIsAccepted(s: seq<byte>, i: nat, cp: int)
    requires CString(s) && i < |s| && SafeForDisplay(cp) && cp >= 0x80
    requires i + |Encode(cp)| <= |s| && s[i..i + |Encode(cp)|] == Encode(cp)
    ensures CharLen(s, i) == |Encode(cp)|
  {
    hide SafeForDisplay, CharLen;
    EncodeDecodes(cp);
    CharLenOfLoose(s, i, |Encode(cp)|);
  }

  /** A positive verdict depends only on the bytes of the character. */
  lemma CharLenLocal(s: seq<byte>, i: nat, t: seq<byte>, j: nat)
    requires CString(s) && i < |s| && CString(t) && j < |t| && CharLen(s, i) > 0
    requires i + CharLen(s, i) <= |s| && j + CharLen(s, i) <= |t|
    requires t[j..j + CharLen(s, i)] == s[i..i + CharLen(s, i)]
    ensures CharLen(t, j) == CharLen(s, i)
  {
    hide SafeForDisplay, CharLen;
    AcceptedIsRfc3629(s, i);
    AllowlistedIsAccepted(t, j, Decode(s[i..i + CharLen(s, i)]));
  }

  /** What any verdict says about the bytes it covers: none is NUL, and those of a character are not ASCII. */
  lemma CharLenCovers(s: seq<byte>, i: nat)
    requires CString(s) && i < |s| && s[i] != 0
    ensures var n := CharLen(s, i); var w := if n < 0 then -n else n;
            1 <= w <= 4 && i + w < |s| && (n > 0 ==> forall m :: i <= m < i + w ==> s[m] >= 0x80)
  {
    hide SafeForDisplay, CharLen;
    if forall n :: 2 <= n <= 4 ==> !LooseAt(s, i, n) {
      CharLenOtherwise(s, i);
    } else {
      var n :| 2 <= n <= 4 && LooseAt(s, i, n);
      CharLenOfLoose(s, i, n);
      assert forall m :: i <= m < i + n ==> s[m] == s[i..i + n][m - i];
    }
  }
}
