/** Strings for display: the safety test and the truncating sanitizer. */
module Display {
  import opened Bytes
  import opened Allowlist
  import opened Utf8

  const UNDERSCORE: byte := 0x5F

  predicate Printable(b: byte) {
    0x20 <= b <= 0x7E
  }

  /** Bytes consumed at index i. */
  function Width(s: seq<byte>, i: nat): (w: nat)
    requires CString(s) && i < |s| && s[i] != 0
    ensures 1 <= w && i + w < |s|
  {
    CharLenCovers(s, i);
    if Printable(s[i]) then 1 else if CharLen(s, i) < 0 then -CharLen(s, i) else CharLen(s, i)
  }

  predicate SafeAt(s: seq<byte>, i: nat)
    requires CString(s) && i < |s|
  {
    Printable(s[i]) || CharLen(s, i) > 0
  }

  /** qubes_pure_string_safe_for_display from index i on; the do-while rejects the empty string. */
  function SafeFrom(s: seq<byte>, i: nat): bool
    requires CString(s) && i < |s|
    decreases |s| - i
  {
    SafeAt(s, i) && s[i] != 0 && (s[i + Width(s, i)] == 0 || SafeFrom(s, i + Width(s, i)))
  }

  lemma NulIsUnsafe(s: seq<byte>, i: nat)
    requires CString(s) && i < |s| && s[i] == 0
    ensures !SafeAt(s, i)
  {
    hide SafeForDisplay;
  }

  method StringSafe(s: seq<byte>) returns (safe: bool)
    requires CString(s)
    ensures safe == SafeFrom(s, 0)
  {
    hide CharLen;
    var i := 0;
    while true
      invariant 0 <= i < |s| && SafeFrom(s, 0) == SafeFrom(s, i)
      decreases |s| - i
    {
      if s[i] == 0 {
        NulIsUnsafe(s, i);
      }
      if Printable(s[i]) {
        i := i + 1;
      } else {
        var n := ValidateChar(s, i);
        if n <= 0 {
          return false;
        }
        CharLenCovers(s, i);
        i := i + n;
      }
      if s[i] == 0 {
        return true;
      }
    }
  }

  // ----- What a safe string is -----

  function EncodeAll(cps: seq<int>): seq<byte>
    requires forall k :: 0 <= k < |cps| ==> Scalar(cps[k])
  {
    if cps == [] then [] else Encode(cps[0]) + EncodeAll(cps[1..])
  }

  /** Every code point is on the allowlist. */
  ghost predicate AllSafe(cps: seq<int>) {
    forall k :: 0 <= k < |cps| ==> SafeForDisplay(cps[k])
  }

  lemma AsciiCodePoint(b: byte)
    requires Printable(b)
    ensures SafeForDisplay(b) && Encode(b) == [b]
  {
    hide SafeForDisplay;
  }

  /** Splitting the first piece off a suffix. */
  lemma Peel(s: seq<byte>, i: nat, t: seq<byte>, rest: seq<byte>)
    requires i <= |s| && s[i..] == t + rest + [0]
    ensures i + |t| < |s| && s[i..i + |t|] == t && s[i + |t|..] == rest + [0]
  {
    assert s[i..i + |t|] == s[i..][..|t|];
    assert s[i + |t|..] == s[i..][|t|..];
  }

  /** The code point at a safe position. */
  lemma SafeAtIsEncoding(s: seq<byte>, i: nat) returns (cp: int)
    requires CString(s) && i < |s| && s[i] != 0 && SafeAt(s, i)
    ensures SafeForDisplay(cp) && Encode(cp) == s[i..i + Width(s, i)]
  {
    hide SafeForDisplay, CharLen;
    if Printable(s[i]) {
      AsciiCodePoint(s[i]);
      cp := s[i];
    } else {
      AcceptedIsRfc3629(s, i);
      cp := Decode(s[i..i + CharLen(s, i)]);
    }
  }

  lemma EncodingIsSafeAt(s: seq<byte>, i: nat, cp: int)
    requires CString(s) && i < |s| && SafeForDisplay(cp)
    requires i + |Encode(cp)| < |s| && s[i..i + |Encode(cp)|] == Encode(cp)
    ensures s[i] != 0 && SafeAt(s, i) && Width(s, i) == |Encode(cp)|
  {
    hide SafeForDisplay, CharLen;
    assert s[i] == Encode(cp)[0];
    if cp < 0x80 {
      assert !(0x7F <= cp <= 0xA0);
    } else {
      AllowlistedIsAccepted(s, i, cp);
      AcceptedIsRfc3629(s, i);
    }
  }

  lemma {:induction false} SafeFromDecodes(s: seq<byte>, i: nat) returns (cps: seq<int>)
    requires CString(s) && i < |s| && SafeFrom(s, i)
    ensures cps != [] && AllSafe(cps) && s[i..] == EncodeAll(cps) + [0]
    decreases |s| - i
  {
    hide SafeForDisplay, CharLen, Width, Encode;
    var cp := SafeAtIsEncoding(s, i);
    var w := Width(s, i);
    var rest := [];
    if s[i + w] == 0 {
      assert s[i + w..] == EncodeAll(rest) + [0];
    } else {
      rest := SafeFromDecodes(s, i + w);
    }
    cps := [cp] + rest;
    hide EncodeAll;
    EncodeOneMore(cp, rest);
    assert s[i..] == s[i..i + w] + s[i + w..];
  }

  lemma EncodeOneMore(cp: int, rest: seq<int>)
    requires SafeForDisplay(cp) && AllSafe(rest)
    ensures AllSafe([cp] + rest) && EncodeAll([cp] + rest) == Encode(cp) + EncodeAll(rest)
  {
    hide SafeForDisplay, Encode;
    assert ([cp] + rest)[1..] == rest;
  }

  lemma EncodeUnfold(cps: seq<int>)
    requires cps != [] && AllSafe(cps)
    ensures EncodeAll(cps) == Encode(cps[0]) + EncodeAll(cps[1..])
    ensures |cps| == 1 ==> EncodeAll(cps[1..]) == []
  {
    hide SafeForDisplay, Encode;
  }

  lemma SafeFromStep(s: seq<byte>, i: nat)
    requires CString(s) && i < |s| && s[i] != 0 && SafeAt(s, i)
    ensures SafeFrom(s, i) <==> s[i + Width(s, i)] == 0 || SafeFrom(s, i + Width(s, i))
  {
    hide SafeAt, Width;
  }

  lemma {:induction false} EncodingIsSafeFrom(s: seq<byte>, i: nat, cps: seq<int>)
    requires CString(s) && i < |s| && cps != [] && AllSafe(cps) && s[i..] == EncodeAll(cps) + [0]
    ensures SafeFrom(s, i)
    decreases |cps|
  {
    hide SafeForDisplay, CharLen, Width, Encode, SafeAt, SafeFrom, EncodeAll;
    assert SafeForDisplay(cps[0]);
    var b, rest := Encode(cps[0]), EncodeAll(cps[1..]);
    EncodeUnfold(cps);
    Peel(s, i, b, rest);
    EncodingIsSafeAt(s, i, cps[0]);
    SafeFromStep(s, i);
    if |cps| > 1 {
      EncodingIsSafeFrom(s, i + |b|, cps[1..]);
    } else {
      assert s[i + |b|..][0] == 0;
    }
  }

  /** A string is reported safe exactly when it is a non-empty sequence of allowlisted code points in UTF-8. */
  lemma SafeMeansAllowlistedText(s: seq<byte>)
    requires CString(s)
    ensures SafeFrom(s, 0) <==> exists cps :: cps != [] && AllSafe(cps) && s == EncodeAll(cps) + [0]
  {
    hide SafeFrom, EncodeAll, SafeForDisplay;
    assert s[0..] == s;
    if SafeFrom(s, 0) {
      var cps := SafeFromDecodes(s, 0);
      assert cps != [] && AllSafe(cps) && s == EncodeAll(cps) + [0];
    }
    if cps :| cps != [] && AllSafe(cps) && s == EncodeAll(cps) + [0] {
      EncodingIsSafeFrom(s, 0, cps);
    }
  }

  // ----- The sanitizer -----

  /** What the character at index i is replaced by. */
  function Token(s: seq<byte>, i: nat): (t: seq<byte>)
    requires CString(s) && i < |s| && s[i] != 0
    ensures 1 <= |t|
  {
    if SafeAt(s, i) then s[i..i + Width(s, i)] else [UNDERSCORE]
  }

  function Tokens(s: seq<byte>, i: nat): seq<seq<byte>>
    requires CString(s) && i < |s|
    decreases |s| - i
  {
    if s[i] == 0 then [] else [Token(s, i)] + Tokens(s, i + Width(s, i))
  }

  function Flatten(ts: seq<seq<byte>>): seq<byte> {
    if ts == [] then [] else ts[0] + Flatten(ts[1..])
  }

  /** A single byte needs one free place, a multi-byte character one more than its length. */
  predicate Takes(t: seq<byte>, j: nat, room: nat) {
    if |t| == 1 then j < room else j + |t| < room
  }

  /** How many tokens go into `room` bytes, of which j are taken. */
  function KeptCount(ts: seq<seq<byte>>, j: nat, room: nat): (k: nat)
    ensures k <= |ts|
  {
    if ts == [] || !Takes(ts[0], j, room) then 0 else 1 + KeptCount(ts[1..], j + |ts[0]|, room)
  }

  /** The text that is kept, without its NUL. */
  function Sanitized(s: seq<byte>, room: nat): seq<byte>
    requires CString(s)
  {
    Flatten(Tokens(s, 0)[..KeptCount(Tokens(s, 0), 0, room)])
  }

  /** A token that the sanitizer leaves alone: a printable byte or a character it accepts. */
  ghost predicate Stable(t: seq<byte>) {
    exists cp :: SafeForDisplay(cp) && t == Encode(cp)
  }

  ghost predicate AllStable(ts: seq<seq<byte>>) {
    forall k :: 0 <= k < |ts| ==> Stable(ts[k])
  }

  lemma {:induction false} TokensAreStable(s: seq<byte>, i: nat)
    requires CString(s) && i < |s|
    ensures AllStable(Tokens(s, i))
    decreases |s| - i
  {
    hide SafeForDisplay, CharLen, Width, Encode;
    if s[i] != 0 {
      TokensAreStable(s, i + Width(s, i));
      if SafeAt(s, i) {
        var cp := SafeAtIsEncoding(s, i);
      } else {
        AsciiCodePoint(UNDERSCORE);
      }
      assert Stable(Token(s, i));
    }
  }

  lemma StableBytes(t: seq<byte>)
    requires Stable(t)
    ensures 1 <= |t| && forall k :: 0 <= k < |t| ==> t[k] != 0
  {
    hide SafeForDisplay;
    var cp :| SafeForDisplay(cp) && t == Encode(cp);
  }

  lemma {:induction false} FlattenIsCString(ts: seq<seq<byte>>)
    requires AllStable(ts)
    ensures CString(Flatten(ts) + [0])
  {
    hide Stable;
    if ts != [] {
      assert Stable(ts[0]);
      StableBytes(ts[0]);
      FlattenIsCString(ts[1..]);
      assert forall k :: 0 <= k < |Flatten(ts[1..])| ==> Flatten(ts[1..])[k] == (Flatten(ts[1..]) + [0])[k] != 0;
      assert Flatten(ts) + [0] == ts[0] + (Flatten(ts[1..]) + [0]);
    }
  }

  lemma StableAt(s: seq<byte>, i: nat, t: seq<byte>)
    requires Stable(t) && CString(s) && i < |s| && i + |t| < |s| && s[i..i + |t|] == t
    ensures s[i] != 0 && SafeAt(s, i) && Width(s, i) == |t|
  {
    hide SafeForDisplay, CharLen, Encode, SafeAt, Width, CString;
    var cp :| SafeForDisplay(cp) && t == Encode(cp);
    EncodingIsSafeAt(s, i, cp);
  }

  /** The replacement, token by token, by what stands at index i: an allowlisted character stays; any other character
      of the loose grammar becomes one underscore as a whole; any other byte becomes an underscore by itself. */
  lemma TokensMeaning(s: seq<byte>, i: nat)
    requires CString(s) && i < |s| && s[i] != 0
    ensures forall cp :: SafeForDisplay(cp) && i + |Encode(cp)| < |s| && s[i..i + |Encode(cp)|] == Encode(cp) ==>
              Tokens(s, i) == [Encode(cp)] + Tokens(s, i + |Encode(cp)|)
    ensures forall n :: 2 <= n <= 4 && LooseAt(s, i, n) && !SafeForDisplay(Decode(s[i..i + n])) ==>
              i + n < |s| && Tokens(s, i) == [[0x5F]] + Tokens(s, i + n)
    ensures !Printable(s[i]) && (forall n :: 2 <= n <= 4 ==> !LooseAt(s, i, n)) ==>
              Tokens(s, i) == [[0x5F]] + Tokens(s, i + 1)
  {
    hide CharLen, SafeForDisplay, Encode, Decode, LooseChar;
    forall cp | SafeForDisplay(cp) && i + |Encode(cp)| < |s| && s[i..i + |Encode(cp)|] == Encode(cp)
      ensures Tokens(s, i) == [Encode(cp)] + Tokens(s, i + |Encode(cp)|)
    {
      EncodingIsSafeAt(s, i, cp);
    }
    forall n | 2 <= n <= 4 && LooseAt(s, i, n) && !SafeForDisplay(Decode(s[i..i + n]))
      ensures i + n < |s| && Tokens(s, i) == [[0x5F]] + Tokens(s, i + n)
    {
      CharLenOfLoose(s, i, n);
      LooseIsNotAscii(s, i, n);
    }
    if !Printable(s[i]) && forall n :: 2 <= n <= 4 ==> !LooseAt(s, i, n) {
      CharLenOtherwise(s, i);
    }
  }

  lemma LooseIsNotAscii(s: seq<byte>, i: nat, n: nat)
    requires i + n <= |s| && n >= 2 && LooseAt(s, i, n)
    ensures !Printable(s[i])
  {
  }

  lemma FlattenUnfold(ts: seq<seq<byte>>)
    ensures Flatten(ts) == if ts == [] then [] else ts[0] + Flatten(ts[1..])
  {
  }

  lemma TokensEnd(s: seq<byte>, i: nat)
    requires CString(s) && i < |s| && s[i] == 0
    ensures Tokens(s, i) == []
  {
  }

  lemma TokensStep(s: seq<byte>, i: nat, t: seq<byte>)
    requires CString(s) && i < |s| && s[i] != 0 && SafeAt(s, i) && Width(s, i) == |t| && i + |t| < |s|
    requires s[i..i + |t|] == t
    ensures Tokens(s, i) == [t] + Tokens(s, i + |t|)
  {
    hide SafeAt, Width;
  }

  /** Stable tokens, written out and read again, are the same tokens. */
  lemma {:induction false} TokensOfFlatten(ts: seq<seq<byte>>, s: seq<byte>, i: nat)
    requires AllStable(ts) && CString(s) && i < |s| && s[i..] == Flatten(ts) + [0]
    ensures Tokens(s, i) == ts
    decreases |ts|
  {
    hide SafeForDisplay, CharLen, Width, Encode, SafeAt, Stable, CString, Flatten, Tokens, Token;
    FlattenUnfold(ts);
    if ts == [] {
      assert s[i] == s[i..][0];
      TokensEnd(s, i);
    } else {
      var t := ts[0];
      assert Stable(t);
      Peel(s, i, t, Flatten(ts[1..]));
      StableAt(s, i, t);
      TokensOfFlatten(ts[1..], s, i + |t|);
      TokensStep(s, i, t);
      assert ts == [t] + ts[1..];
    }
  }

  lemma {:induction false} KeptLength(ts: seq<seq<byte>>, j: nat, room: nat)
    requires j <= room
    ensures j + |Flatten(ts[..KeptCount(ts, j, room)])| <= room
    decreases |ts|
  {
    var k := KeptCount(ts, j, room);
    if ts != [] && Takes(ts[0], j, room) {
      KeptLength(ts[1..], j + |ts[0]|, room);
      assert ts[..k][1..] == ts[1..][..k - 1];
    }
  }

  /** All the tokens that were kept are kept again. */
  lemma {:induction false} KeptAgain(ts: seq<seq<byte>>, j: nat, room: nat)
    ensures KeptCount(ts[..KeptCount(ts, j, room)], j, room) == KeptCount(ts, j, room)
    decreases |ts|
  {
    var k := KeptCount(ts, j, room);
    if ts != [] && Takes(ts[0], j, room) {
      KeptAgain(ts[1..], j + |ts[0]|, room);
      assert ts[..k][1..] == ts[1..][..k - 1];
    }
  }

  /** The first token that is dropped, if there is one, did not fit behind the ones before it. */
  lemma {:induction false} KeptIsMaximal(ts: seq<seq<byte>>, j: nat, room: nat)
    ensures var k := KeptCount(ts, j, room); k < |ts| ==> !Takes(ts[k], j + |Flatten(ts[..k])|, room)
    decreases |ts|
  {
    var k := KeptCount(ts, j, room);
    if ts != [] && Takes(ts[0], j, room) {
      KeptIsMaximal(ts[1..], j + |ts[0]|, room);
      assert ts[..k][1..] == ts[1..][..k - 1];
    }
  }

  lemma {:induction false} KeptWereTaken(ts: seq<seq<byte>>, j: nat, room: nat, m: nat)
    requires m < KeptCount(ts, j, room)
    ensures Takes(ts[m], j + |Flatten(ts[..m])|, room)
    decreases |ts|
  {
    if m > 0 {
      KeptWereTaken(ts[1..], j + |ts[0]|, room, m - 1);
      assert ts[..m][1..] == ts[1..][..m - 1];
    }
  }

  lemma {:induction false} LongerPrefix(ts: seq<seq<byte>>, i: nat, j: nat)
    requires i <= j <= |ts|
    ensures |Flatten(ts[..i])| <= |Flatten(ts[..j])|
    decreases j - i
  {
    if i < j {
      KeepOne(ts, j - 1);
      LongerPrefix(ts, i, j - 1);
    }
  }

  /** The first k tokens are the longest prefix of whole tokens in `room` bytes. */
  ghost predicate Longest(ts: seq<seq<byte>>, k: nat, room: nat)
    requires k <= |ts|
  {
    && |Flatten(ts[..k])| <= room
    && forall j :: k < j <= |ts| ==> |Flatten(ts[..j])| > room
  }

  /** Some multi-byte token would end exactly with the last free byte. */
  ghost predicate EndsExactly(ts: seq<seq<byte>>, room: nat) {
    exists k :: 0 <= k < |ts| && |ts[k]| > 1 && |Flatten(ts[..k + 1])| == room
  }

  lemma KeptIsLongestExactly(ts: seq<seq<byte>>, room: nat)
    requires forall k :: 0 <= k < |ts| ==> |ts[k]| >= 1
    ensures Longest(ts, KeptCount(ts, 0, room), room) <==> !EndsExactly(ts, room)
  {
    hide Flatten, KeptCount;
    var k := KeptCount(ts, 0, room);
    KeptLength(ts, 0, room);
    KeptIsMaximal(ts, 0, room);
    if EndsExactly(ts, room) {
      var m :| 0 <= m < |ts| && |ts[m]| > 1 && |Flatten(ts[..m + 1])| == room;
      KeepOne(ts, m);
      if m < k {
        KeptWereTaken(ts, 0, room, m);
      }
      assert m + 1 > k;
    } else if k < |ts| {
      KeepOne(ts, k);
      assert |Flatten(ts[..k + 1])| > room;
      forall j | k < j <= |ts| ensures |Flatten(ts[..j])| > room {
        LongerPrefix(ts, k + 1, j);
      }
    }
  }

  /** The sanitizer keeps as many whole tokens as fit, except when a multi-byte character would fill the space to its
      last byte: that character is dropped. */
  lemma SanitizedIsLongestExactly(s: seq<byte>, room: nat)
    requires CString(s)
    ensures var ts := Tokens(s, 0);
            && Sanitized(s, room) == Flatten(ts[..KeptCount(ts, 0, room)])
            && (Longest(ts, KeptCount(ts, 0, room), room) <==> !EndsExactly(ts, room))
  {
    hide Tokens, KeptCount, Flatten, Longest, EndsExactly, Stable;
    var ts := Tokens(s, 0);
    TokensAreStable(s, 0);
    forall k | 0 <= k < |ts| ensures |ts[k]| >= 1 {
      StableBytes(ts[k]);
    }
    KeptIsLongestExactly(ts, room);
  }

  /** An instance: the two bytes of U+00E9 into a buffer with room for two bytes and the NUL. */
  lemma ExactFitIsDropped()
    ensures var s := [0xC3, 0xA9, 0];
            CString(s) && Tokens(s, 0) == [s[..2]] && Sanitized(s, 2) == [] && !Longest(Tokens(s, 0), 0, 2)
  {
    var s: seq<byte> := [0xC3, 0xA9, 0];
    assert Encode(0xE9) == [0xC3, 0xA9] == s[0..2];
    AllowlistedIsAccepted(s, 0, 0xE9);
    assert Token(s, 0) == s[0..2] && Tokens(s, 2) == [];
    var ts := Tokens(s, 0);
    assert ts == [s[..2]] && ts[..1] == ts && ts[..0] == [];
    FlattenNothing();
    assert Flatten(ts) == s[..2] + [];
  }

  /** The output is empty or safe to display, takes at most `room` bytes, and is a fixed point. */
  lemma SanitizedIsSafeAndFinal(s: seq<byte>, room: nat)
    requires CString(s)
    ensures var out := Sanitized(s, room);
            && |out| <= room && CString(out + [0])
            && (out == [] || SafeFrom(out + [0], 0))
            && Sanitized(out + [0], room) == out
  {
    hide SafeFrom, CString;
    NonEmpty(s);
    var ts := Tokens(s, 0);
    var k := KeptCount(ts, 0, room);
    var kept := ts[..k];
    TokensAreStable(s, 0);
    assert AllStable(kept);
    FlattenIsCString(kept);
    KeptLength(ts, 0, room);
    var out := Flatten(kept);
    assert (out + [0])[0..] == out + [0];
    NonEmpty(out + [0]);
    TokensOfFlatten(kept, out + [0], 0);
    KeptAgain(ts, 0, room);
    assert kept[..k] == kept;
    if kept != [] {
      StableTextIsSafe(kept, out + [0], 0);
    }
  }

  lemma NonEmpty(s: seq<byte>)
    requires CString(s)
    ensures 0 < |s|
  {
  }

  lemma {:induction false} StableTextIsSafe(ts: seq<seq<byte>>, s: seq<byte>, i: nat)
    requires ts != [] && AllStable(ts) && CString(s) && i < |s| && s[i..] == Flatten(ts) + [0]
    ensures SafeFrom(s, i)
    decreases |ts|
  {
    hide SafeForDisplay, CharLen, Width, Encode, SafeAt, Stable, CString;
    var t := ts[0];
    assert Stable(t);
    Peel(s, i, t, Flatten(ts[1..]));
    StableAt(s, i, t);
    if |ts| > 1 {
      StableTextIsSafe(ts[1..], s, i + |t|);
    }
  }

  lemma {:induction false} FlattenAppend(a: seq<seq<byte>>, b: seq<seq<byte>>)
    ensures Flatten(a + b) == Flatten(a) + Flatten(b)
  {
    if a == [] {
      assert a + b == b;
    } else {
      FlattenAppend(a[1..], b);
      assert (a + b)[1..] == a[1..] + b && (a + b)[0] == a[0];
      assert Flatten(a + b) == a[0] + Flatten(a[1..] + b);
    }
  }

  /** One token more in the buffer. */
  lemma KeepOne(ts: seq<seq<byte>>, n: nat)
    requires n < |ts|
    ensures Flatten(ts[..n + 1]) == Flatten(ts[..n]) + ts[n]
  {
    assert ts[..n + 1] == ts[..n] + [ts[n]];
    FlattenAppend(ts[..n], [ts[n]]);
    assert Flatten([ts[n]]) == ts[n] + Flatten([]);
  }

  /** The token at index i, case by case. */
  lemma TokenCases(s: seq<byte>, i: nat)
    requires CString(s) && i < |s| && s[i] != 0
    ensures Printable(s[i]) ==> Token(s, i) == [s[i]] && Width(s, i) == 1
    ensures !Printable(s[i]) && CharLen(s, i) <= 0 ==> Token(s, i) == [UNDERSCORE] && Width(s, i) == -CharLen(s, i)
    ensures !Printable(s[i]) && CharLen(s, i) > 0 ==>
              Width(s, i) == CharLen(s, i) >= 2 && Token(s, i) == s[i..i + CharLen(s, i)]
  {
    hide CharLen;
    CharLenCovers(s, i);
    if CharLen(s, i) > 0 {
      AcceptedIsRfc3629(s, i);
    }
  }

  /** One token of the input consumed, with n tokens and j bytes kept so far. */
  lemma SanitizeStep(s: seq<byte>, i: nat, ts: seq<seq<byte>>, n: nat, j: nat, room: nat)
    requires CString(s) && i < |s| && s[i] != 0 && n <= |ts| && Tokens(s, i) == ts[n..]
    ensures n < |ts| && ts[n] == Token(s, i) && Tokens(s, i + Width(s, i)) == ts[n + 1..]
    ensures Flatten(ts[..n + 1]) == Flatten(ts[..n]) + Token(s, i)
    ensures KeptCount(ts[n..], j, room)
         == if Takes(ts[n], j, room) then 1 + KeptCount(ts[n + 1..], j + |ts[n]|, room) else 0
  {
    hide CharLen, Token, Width;
    assert ts[n..][0] == ts[n] && ts[n..][1..] == ts[n + 1..];
    KeepOne(ts, n);
  }

  /** qubes_pure_sanitize_string_safe_for_display, filling the caller's buffer. */
  method Sanitize(s: seq<byte>, result: array<byte>, maxLineLength: nat) returns (len: nat)
    requires CString(s) && maxLineLength <= result.Length
    modifies result
    ensures maxLineLength == 0 ==> len == 0
    ensures maxLineLength > 0 ==> 1 <= len <= maxLineLength && result[..len] == Sanitized(s, maxLineLength - 1) + [0]
  {
    hide CharLen, Flatten, CString, Token, Tokens, Width, KeptCount;
    if maxLineLength == 0 {
      return 0;
    }
    NonEmpty(s);
    var room := maxLineLength - 1;
    var i, j := 0, 0;
    ghost var ts, n := Tokens(s, 0), 0;
    FlattenNothing();
    assert ts[..0] == [] && ts[0..] == ts;
    while s[i] != 0 && j < room
      invariant 0 <= i < |s| && 0 <= j <= room && 0 <= n <= |ts|
      invariant Tokens(s, i) == ts[n..]
      invariant result[..j] == Flatten(ts[..n])
      invariant KeptCount(ts, 0, room) == n + KeptCount(ts[n..], j, room)
      decreases |s| - i
    {
      SanitizeStep(s, i, ts, n, j, room);
      TokenCases(s, i);
      if Printable(s[i]) {
        result[j] := s[i];
        assert result[..j + 1] == result[..j] + [s[i]];
        i, j, n := i + 1, j + 1, n + 1;
        continue;
      }
      var c := ValidateChar(s, i);
      if c < 0 {
        result[j] := UNDERSCORE;
        assert result[..j + 1] == result[..j] + [UNDERSCORE];
        i, j, n := i - c, j + 1, n + 1;
        continue;
      }
      if c >= room - j {
        SanitizedStops(ts, n, j, room);
        break;
      }
      KeepChar(s, i, c, result, j);
      i, j, n := i + c, j + c, n + 1;
    }
    if s[i] == 0 || j >= room {
      NothingMoreKept(s, i, ts, n, j, room);
    }
    result[j] := 0;
    len := j + 1;
    assert result[..len] == result[..j] + [0];
  }

  /** The copying loop of a kept character. */
  method KeepChar(s: seq<byte>, i: nat, c: nat, result: array<byte>, j: nat)
    requires i + c <= |s| && j + c <= result.Length
    modifies result
    ensures result[..j + c] == old(result[..j]) + s[i..i + c]
  {
    for k := 0 to c
      invariant result[..j + k] == old(result[..j]) + s[i..i + k]
    {
      result[j + k] := s[i + k];
      assert result[..j + k + 1] == result[..j + k] + [s[i + k]];
    }
  }

  lemma SanitizedStops(ts: seq<seq<byte>>, n: nat, j: nat, room: nat)
    requires n < |ts| && !Takes(ts[n], j, room)
    ensures KeptCount(ts[n..], j, room) == 0
  {
  }

  lemma NothingMoreKept(s: seq<byte>, i: nat, ts: seq<seq<byte>>, n: nat, j: nat, room: nat)
    requires CString(s) && i < |s| && n <= |ts| && Tokens(s, i) == ts[n..] && (s[i] == 0 || j >= room)
    ensures KeptCount(ts[n..], j, room) == 0
  {
    hide CharLen;
  }

  lemma FlattenNothing()
    ensures Flatten([]) == []
  {
  }
}
