/** Bytes, fixed-width integers and little-endian fields, shared by every component. */
module Bytes {
  const TWO32: int := 0x1_0000_0000
  const TWO63: int := 0x8000_0000_0000_0000
  const TWO64: int := 0x1_0000_0000_0000_0000

  type byte = b: int | 0 <= b < 256
  type uint32 = x: int | 0 <= x < TWO32
  type uint64 = x: int | 0 <= x < TWO64

  /** The value a 64-bit unsigned C expression keeps of an exact result. */
  function U64(x: int): (r: uint64)
    ensures 0 <= x < TWO64 ==> r == x
  {
    x % TWO64
  }

  function Min(a: int, b: int): int {
    if a <= b then a else b
  }

  function Max(a: int, b: int): int {
    if a <= b then b else a
  }

  function Zeros(n: nat): (s: seq<byte>)
    ensures |s| == n && forall i :: 0 <= i < n ==> s[i] == 0
  {
    seq(n, _ => 0)
  }

  function Pow256(n: nat): nat {
    if n == 0 then 1 else 256 * Pow256(n - 1)
  }

  lemma Pow256Values()
    ensures Pow256(4) == TWO32 && Pow256(8) == TWO64
  {
    assert Pow256(2) == 65536;
    assert Pow256(4) == TWO32;
    assert Pow256(6) == 65536 * TWO32;
  }

  /** The n low bytes of x, least significant first. */
  function Le(x: nat, n: nat): (s: seq<byte>)
    ensures |s| == n
  {
    if n == 0 then [] else [x % 256] + Le(x / 256, n - 1)
  }

  function UnLe(s: seq<byte>): nat {
    if s == [] then 0 else s[0] + 256 * UnLe(s[1..])
  }

  lemma {:induction false} UnLeLe(x: nat, n: nat)
    requires x < Pow256(n)
    ensures UnLe(Le(x, n)) == x
  {
    if n != 0 {
      UnLeLe(x / 256, n - 1);
      assert Le(x, n)[1..] == Le(x / 256, n - 1);
    }
  }

  lemma {:induction false} LeUnLe(s: seq<byte>)
    ensures UnLe(s) < Pow256(|s|) && Le(UnLe(s), |s|) == s
  {
    if s != [] {
      LeUnLe(s[1..]);
      assert UnLe(s) / 256 == UnLe(s[1..]) && UnLe(s) % 256 == s[0];
    }
  }

  // ----- Fields and slices of byte strings -----

  function Field4(b: seq<byte>, at: nat): uint32
    requires at + 4 <= |b|
  {
    LeUnLe(b[at..at + 4]); Pow256Values();
    UnLe(b[at..at + 4])
  }

  function Field8(b: seq<byte>, at: nat): uint64
    requires at + 8 <= |b|
  {
    LeUnLe(b[at..at + 8]); Pow256Values();
    UnLe(b[at..at + 8])
  }

  lemma Field4At(b: seq<byte>, at: nat, x: uint32)
    requires at + 4 <= |b| && b[at..at + 4] == Le(x, 4)
    ensures Field4(b, at) == x
  {
    Pow256Values();
    UnLeLe(x, 4);
  }

  lemma Field8At(b: seq<byte>, at: nat, x: uint64)
    requires at + 8 <= |b| && b[at..at + 8] == Le(x, 8)
    ensures Field8(b, at) == x
  {
    Pow256Values();
    UnLeLe(x, 8);
  }

  lemma SliceOfSlice(b: seq<byte>, lo: nat, hi: nat, i: nat, j: nat)
    requires lo <= hi <= |b| && i <= j <= hi - lo
    ensures b[lo..hi][i..j] == b[lo + i..lo + j]
  {
    forall k | 0 <= k < j - i ensures b[lo..hi][i..j][k] == b[lo + i..lo + j][k] {
    }
  }

  lemma Glue(b: seq<byte>, i: nat, j: nat, k: nat)
    requires i <= j <= k <= |b|
    ensures b[i..j] + b[j..k] == b[i..k]
  {
  }

  lemma LeField(b: seq<byte>, at: nat, n: nat)
    requires at + n <= |b|
    ensures Le(UnLe(b[at..at + n]), n) == b[at..at + n]
  {
    LeUnLe(b[at..at + n]);
  }

  /** The value of four and of eight bytes, written out. */
  lemma LittleEndian4(s: seq<byte>)
    requires |s| == 4
    ensures var a: int, b: int, c: int, d: int := s[0], s[1], s[2], s[3];
            UnLe(s) == a + 0x100 * b + 0x1_0000 * c + 0x100_0000 * d
  {
    assert s[1..][1..] == s[2..] && s[2..][1..] == s[3..] && s[3..][1..] == [];
    assert UnLe(s) == s[0] + 256 * UnLe(s[1..]);
    assert UnLe(s[1..]) == s[1] + 256 * UnLe(s[2..]);
    assert UnLe(s[2..]) == s[2] + 256 * UnLe(s[3..]);
    assert UnLe(s[3..]) == s[3] + 256 * UnLe([]);
  }

  lemma LittleEndian8(s: seq<byte>)
    requires |s| == 8
    ensures UnLe(s) == UnLe(s[..4]) + 0x1_0000_0000 * UnLe(s[4..])
  {
    LittleEndian4(s[..4]);
    assert UnLe(s) == s[0] + 256 * UnLe(s[1..]);
    assert s[1..][1..] == s[2..] && s[2..][1..] == s[3..] && s[3..][1..] == s[4..];
    assert UnLe(s[1..]) == s[1] + 256 * UnLe(s[2..]);
    assert UnLe(s[2..]) == s[2] + 256 * UnLe(s[3..]);
    assert UnLe(s[3..]) == s[3] + 256 * UnLe(s[4..]);
  }
}
