/** File names and symbolic links: validate_path and its wrappers, against a split-on-slash specification. */
module Paths {
  import opened Bytes
  import opened Utf8
  import opened Display

  const SLASH: byte := 0x2F
  const DOT: byte := 0x2E
  const EINVAL := 22
  const ENOLINK := 67
  const EILSEQ := 84

  /** enum QubesFilenameValidationFlags; `unknown` stands for any bit outside it. */
  datatype Flags = Flags(unsafeCharacters: bool, nonCanonicalSymlinks: bool, unsafeSymlinks: bool,
                         nonCanonicalPaths: bool, trailingSlash: bool, unknown: bool)

  // ----- The specification: components between slashes -----

  /** Pieces between slashes; always at least one. */
  function Split(p: seq<byte>): (cs: seq<seq<byte>>)
    ensures |cs| >= 1
  {
    if p == [] then [[]]
    else
      var rest := Split(p[1..]);
      if p[0] == SLASH then [[]] + rest else [[p[0]] + rest[0]] + rest[1..]
  }

  function Join(cs: seq<seq<byte>>): seq<byte>
    requires |cs| >= 1
  {
    if |cs| == 1 then cs[0] else cs[0] + [SLASH] + Join(cs[1..])
  }

  predicate IsDot(c: seq<byte>) {
    c == [DOT]
  }

  predicate IsDotDot(c: seq<byte>) {
    c == [DOT, DOT]
  }

  predicate IsNormal(c: seq<byte>) {
    c != [] && !IsDot(c) && !IsDotDot(c)
  }

  function DotDots(cs: seq<seq<byte>>): nat {
    if cs == [] then 0 else (if IsDotDot(cs[0]) then 1 else 0) + DotDots(cs[1..])
  }

  function Normals(cs: seq<seq<byte>>): nat {
    if cs == [] then 0 else (if IsNormal(cs[0]) then 1 else 0) + Normals(cs[1..])
  }

  /** No ".." comes after a normal component. */
  predicate DotDotsLead(cs: seq<seq<byte>>) {
    forall i, j :: 0 <= i < j < |cs| && IsNormal(cs[i]) ==> !IsDotDot(cs[j])
  }

  /** No "." and no empty component, but for one after a trailing slash. */
  predicate Canonical(cs: seq<seq<byte>>) {
    forall j :: 0 <= j < |cs| ==> !IsDot(cs[j]) && (cs[j] == [] ==> j == |cs| - 1)
  }

  /** The rule for a C string s (its content is s without the NUL). */
  predicate Acceptable(s: seq<byte>, budget: nat, flags: Flags)
    requires CString(s)
  {
    var p := s[..|s| - 1];
    var cs := Split(p);
    if p == [] then flags.nonCanonicalPaths
    else
      && p[0] != SLASH
      && (flags.unsafeCharacters || SafeFrom(s, 0))
      && (flags.trailingSlash || p[|p| - 1] != SLASH)
      && (flags.nonCanonicalPaths || Canonical(cs))
      && DotDots(cs) <= budget && DotDotsLead(cs)
  }

  // ----- The scanner -----

  predicate AtStart(s: seq<byte>, i: nat)
    requires i <= |s|
  {
    i == 0 || s[i - 1] == SLASH
  }

  predicate EndsAt(s: seq<byte>, i: nat)
    requires i < |s|
  {
    s[i] == 0 || s[i] == SLASH
  }

  /** The state of the loop of validate_path at its head: what it will return. */
  function Scan(s: seq<byte>, i: nat, budget: nat, count: nat, flags: Flags): int
    requires CString(s) && i < |s| && (i == 0 ==> s[0] != 0)
    decreases |s| - i, 1
  {
    if s[i] == 0 then if !flags.trailingSlash && s[i - 1] == SLASH then -EILSEQ else count
    else if !AtStart(s, i) then ScanChar(s, i, budget, count, flags)
    else if s[i] == SLASH || (s[i] == DOT && EndsAt(s, i + 1)) then
      if flags.nonCanonicalPaths then Scan(s, i + 1, budget, count, flags) else -EILSEQ
    else if s[i] == DOT && s[i + 1] == DOT && EndsAt(s, i + 2) then
      if budget < 1 then -ENOLINK else Scan(s, i + 2, budget - 1, count, flags)
    else ScanChar(s, i, 0, count + 1, flags)
  }

  /** The character test at the end of the loop body. */
  function ScanChar(s: seq<byte>, i: nat, budget: nat, count: nat, flags: Flags): int
    requires CString(s) && i < |s| && s[i] != 0
    decreases |s| - i, 0
  {
    if Printable(s[i]) || flags.unsafeCharacters then Scan(s, i + 1, budget, count, flags)
    else
      CharLenCovers(s, i);
      if CharLen(s, i) > 0 then Scan(s, i + CharLen(s, i), budget, count, flags) else -EILSEQ
  }

  /** validate_path: the number of normal components, or a negative errno. */
  function ScanPath(s: seq<byte>, budget: nat, flags: Flags): int
    requires CString(s)
  {
    if s[0] == 0 then if flags.nonCanonicalPaths then 0 else -ENOLINK
    else if s[0] == SLASH then -ENOLINK
    else Scan(s, 0, budget, 0, flags)
  }

  /** The loop as written, with its index juggling; no access goes past the NUL. */
  method ValidatePath(s: seq<byte>, allowedLeadingDotdot: nat, flags: Flags) returns (r: int)
    requires CString(s)
    ensures r == ScanPath(s, allowedLeadingDotdot, flags)
  {
    hide CharLen;
    if s[0] == 0 {
      return if flags.nonCanonicalPaths then 0 else -ENOLINK;
    }
    if s[0] == SLASH {
      return -ENOLINK;
    }
    var i, count, allowed := 0, 0, allowedLeadingDotdot;
    while s[i] != 0
      invariant 0 <= i < |s| && (i == 0 ==> s[0] != 0)
      invariant ScanPath(s, allowedLeadingDotdot, flags) == Scan(s, i, allowed, count, flags)
      decreases |s| - i
    {
      if i == 0 || s[i - 1] == SLASH {
        if s[i] == SLASH {
          if flags.nonCanonicalPaths {
            i := i + 1;
            continue;
          }
          return -EILSEQ;
        }
        if s[i] == DOT {
          if s[i + 1] == 0 || s[i + 1] == SLASH {
            if flags.nonCanonicalPaths {
              i := i + 1;
              continue;
            }
            return -EILSEQ;
          }
          if s[i + 1] == DOT && (s[i + 2] == 0 || s[i + 2] == SLASH) {
            if allowed < 1 {
              return -ENOLINK;
            }
            allowed := allowed - 1;
            i := i + 2;
            continue;
          }
        }
        allowed := 0;
        count := count + 1;
      }
      if Printable(s[i]) || flags.unsafeCharacters {
        i := i + 1;
      } else {
        var n := ValidateChar(s, i);
        CharLenCovers(s, i);
        if n > 0 {
          i := i + n;
        } else {
          return -EILSEQ;
        }
      }
    }
    if !flags.trailingSlash && s[i - 1] == SLASH {
      return -EILSEQ;
    }
    return count;
  }

  // ----- The scanner meets the specification -----

  /** The ".." rule, component by component. */
  predicate RuleHolds(cs: seq<seq<byte>>, budget: nat) {
    cs == []
    || (if IsNormal(cs[0]) then RuleHolds(cs[1..], 0)
        else if IsDotDot(cs[0]) then budget >= 1 && RuleHolds(cs[1..], budget - 1)
        else RuleHolds(cs[1..], budget))
  }

  lemma {:induction false} NoDotDots(cs: seq<seq<byte>>)
    ensures DotDots(cs) == 0 <==> forall j :: 0 <= j < |cs| ==> !IsDotDot(cs[j])
  {
    if cs != [] {
      NoDotDots(cs[1..]);
      if DotDots(cs) == 0 {
        assert forall j :: 1 <= j < |cs| ==> cs[j] == cs[1..][j - 1];
      } else if IsDotDot(cs[0]) {
      } else {
        var j :| 0 <= j < |cs[1..]| && IsDotDot(cs[1..][j]);
        assert IsDotDot(cs[j + 1]);
      }
    }
  }

  lemma {:induction false} RuleMeaning(cs: seq<seq<byte>>, budget: nat)
    ensures RuleHolds(cs, budget) <==> DotDots(cs) <= budget && DotDotsLead(cs)
  {
    if cs != [] {
      var rest := cs[1..];
      assert forall j :: 1 <= j < |cs| ==> cs[j] == rest[j - 1];
      assert DotDotsLead(cs) ==> DotDotsLead(rest) by {
        if DotDotsLead(cs) {
          forall i, j | 0 <= i < j < |rest| && IsNormal(rest[i]) ensures !IsDotDot(rest[j]) {
            assert rest[i] == cs[i + 1] && rest[j] == cs[j + 1];
          }
        }
      }
      if IsNormal(cs[0]) {
        RuleMeaning(rest, 0);
        NoDotDots(rest);
      } else {
        RuleMeaning(rest, if IsDotDot(cs[0]) then if budget >= 1 then budget - 1 else 0 else budget);
        assert DotDotsLead(rest) ==> DotDotsLead(cs);
      }
    }
  }

  lemma CanonicalTail(cs: seq<seq<byte>>)
    requires |cs| >= 1
    ensures Canonical(cs) <==> !IsDot(cs[0]) && (cs[0] == [] ==> |cs| == 1) && Canonical(cs[1..])
  {
    if !IsDot(cs[0]) && (cs[0] == [] ==> |cs| == 1) && Canonical(cs[1..]) {
      forall j | 0 <= j < |cs| ensures !IsDot(cs[j]) && (cs[j] == [] ==> j == |cs| - 1) {
        if j > 0 {
          assert cs[j] == cs[1..][j - 1];
        }
      }
    }
  }

  /** The content from index i on. */
  function Rest(s: seq<byte>, i: nat): seq<byte>
    requires CString(s) && i < |s|
  {
    s[i..|s| - 1]
  }

  /** The components still to be judged: in the middle of one, those after it. */
  function Pending(s: seq<byte>, i: nat): seq<seq<byte>>
    requires CString(s) && i < |s|
  {
    if AtStart(s, i) then Split(Rest(s, i)) else Split(Rest(s, i))[1..]
  }

  predicate RestOk(s: seq<byte>, i: nat, budget: nat, flags: Flags)
    requires CString(s) && i < |s|
  {
    && (flags.unsafeCharacters || s[i] == 0 || SafeFrom(s, i))
    && (flags.trailingSlash || |s| < 2 || s[|s| - 2] != SLASH)
    && (flags.nonCanonicalPaths || Canonical(Pending(s, i)))
    && RuleHolds(Pending(s, i), budget)
  }

  lemma RestStep(s: seq<byte>, i: nat)
    requires CString(s) && i < |s| && s[i] != 0
    ensures i + 1 < |s| && Rest(s, i) == [s[i]] + Rest(s, i + 1)
    ensures s[i] == SLASH ==> Split(Rest(s, i)) == [[]] + Split(Rest(s, i + 1))
    ensures s[i] != SLASH ==>
              && Split(Rest(s, i))[0] == [s[i]] + Split(Rest(s, i + 1))[0]
              && Split(Rest(s, i))[1..] == Split(Rest(s, i + 1))[1..]
  {
    assert Rest(s, i)[1..] == Rest(s, i + 1);
  }

  lemma SafeStep(s: seq<byte>, i: nat)
    requires CString(s) && i + 1 < |s| && Printable(s[i])
    ensures SafeFrom(s, i) <==> s[i + 1] == 0 || SafeFrom(s, i + 1)
  {
    hide CharLen;
  }

  lemma FirstPieceEnds(s: seq<byte>, i: nat)
    requires CString(s) && i < |s|
    ensures Split(Rest(s, i))[0] == [] <==> EndsAt(s, i)
  {
    if s[i] != 0 {
      RestStep(s, i);
    } else {
      assert Rest(s, i) == [];
    }
  }

  /** The first piece is "." exactly when the scanner sees it so; likewise "..". */
  lemma FirstPiece(s: seq<byte>, i: nat)
    requires CString(s) && i < |s| && s[i] != 0 && s[i] != SLASH
    ensures var c := Split(Rest(s, i))[0];
            && c != []
            && (IsDot(c) <==> s[i] == DOT && EndsAt(s, i + 1))
            && (IsDotDot(c) <==> s[i] == DOT && s[i + 1] == DOT && EndsAt(s, i + 2))
  {
    hide Split;
    RestStep(s, i);
    FirstPieceEnds(s, i + 1);
    var c, c1 := Split(Rest(s, i))[0], Split(Rest(s, i + 1))[0];
    assert c[0] == s[i] && |c| == 1 + |c1|;
    if !EndsAt(s, i + 1) {
      RestStep(s, i + 1);
      FirstPieceEnds(s, i + 2);
      assert c[1] == c1[0] == s[i + 1] && |c| == 2 + |Split(Rest(s, i + 2))[0]|;
    }
  }

  /** In the middle of a component, a byte other than NUL changes nothing but the position. */
  lemma MiddleStep(s: seq<byte>, i: nat)
    requires CString(s) && i < |s| && s[i] != 0 && !AtStart(s, i)
    ensures i + 1 < |s| && Pending(s, i + 1) == Pending(s, i)
  {
    hide Split;
    RestStep(s, i);
  }

  /** So does a run of bytes without slash, wherever it starts. */
  lemma {:induction false} RunStep(s: seq<byte>, i: nat, n: nat)
    requires CString(s) && i + n < |s| && forall m :: i <= m < i + n ==> s[m] != SLASH
    ensures Split(Rest(s, i))[1..] == Split(Rest(s, i + n))[1..]
    decreases n
  {
    hide Split;
    if n > 0 {
      RestStep(s, i);
      RunStep(s, i + 1, n - 1);
    }
  }

  /** The character at index i is consumed: what follows is judged the same way. */
  lemma CharStep(s: seq<byte>, i: nat, n: nat, budget: nat, flags: Flags)
    requires CString(s) && i < |s| && s[i] != 0
    requires if Printable(s[i]) || flags.unsafeCharacters then n == 1 else n == CharLen(s, i) > 0
    requires i + n < |s|
    requires !AtStart(s, i) || s[i] != SLASH
    ensures !AtStart(s, i) ==> (RestOk(s, i, budget, flags) <==> RestOk(s, i + n, budget, flags))
                               && Pending(s, i + n) == Pending(s, i)
    ensures AtStart(s, i) ==> Pending(s, i + n) == Pending(s, i)[1..]
    ensures flags.unsafeCharacters || (SafeFrom(s, i) <==> s[i + n] == 0 || SafeFrom(s, i + n))
  {
    hide Split, CharLen, Canonical, RuleHolds;
    if n == 1 {
      if !AtStart(s, i) {
        MiddleStep(s, i);
      } else {
        RunStep(s, i, 1);
      }
      if !flags.unsafeCharacters && Printable(s[i]) {
        SafeStep(s, i);
      }
    }
    if !(Printable(s[i]) || flags.unsafeCharacters) {
      CharLenCovers(s, i);
      assert s[i + n - 1] != SLASH;
      RunStep(s, i, n);
    }
  }

  /** What the scanner returns from index i on, in terms of the components still to come. */
  lemma {:induction false} ScanMeaning(s: seq<byte>, i: nat, budget: nat, count: nat, flags: Flags)
    requires CString(s) && i < |s| && (i == 0 ==> s[0] != 0 && s[0] != SLASH)
    ensures Scan(s, i, budget, count, flags) >= 0 <==> RestOk(s, i, budget, flags)
    ensures RestOk(s, i, budget, flags) ==> Scan(s, i, budget, count, flags) == count + Normals(Pending(s, i))
    decreases |s| - i, 1
  {
    hide Split, CharLen, SafeFrom, Canonical, EndsAt, RuleHolds, Normals, Pending, RestOk;
    if s[i] == 0 {
      NothingPending(s, i);
      RestOkUnfold(s, i, budget, flags);
    } else if !AtStart(s, i) {
      RestOkUnfold(s, i, budget, flags);
      ScanCharMeaning(s, i, budget, count, flags);
    } else if s[i] == SLASH {
      EmptyPiece(s, i, budget, flags);
      ScanMeaning(s, i + 1, budget, count, flags);
    } else {
      if s[i] == DOT && EndsAt(s, i + 1) {
        DotPiece(s, i, budget, flags);
        ScanMeaning(s, i + 1, budget, count, flags);
      } else if s[i] == DOT && s[i + 1] == DOT && EndsAt(s, i + 2) {
        DotDotPiece(s, i, budget, flags);
        if budget >= 1 {
          ScanMeaning(s, i + 2, budget - 1, count, flags);
        }
      } else {
        NormalPiece(s, i, budget, flags);
        ScanCharMeaning(s, i, 0, count + 1, flags);
      }
    }
  }

  lemma RestOkUnfold(s: seq<byte>, i: nat, budget: nat, flags: Flags)
    requires CString(s) && i < |s|
    ensures RestOk(s, i, budget, flags) <==>
              && (flags.unsafeCharacters || s[i] == 0 || SafeFrom(s, i))
              && (flags.trailingSlash || |s| < 2 || s[|s| - 2] != SLASH)
              && (flags.nonCanonicalPaths || Canonical(Pending(s, i)))
              && RuleHolds(Pending(s, i), budget)
  {
  }

  /** A "." component is skipped in non-canonical mode and fatal otherwise. */
  lemma DotPiece(s: seq<byte>, i: nat, budget: nat, flags: Flags)
    requires CString(s) && i < |s| && AtStart(s, i) && s[i] == DOT && EndsAt(s, i + 1)
    ensures Normals(Pending(s, i)) == Normals(Pending(s, i + 1))
    ensures RestOk(s, i, budget, flags) <==> flags.nonCanonicalPaths && RestOk(s, i + 1, budget, flags)
  {
    hide Split, CharLen, SafeFrom, Canonical;
    FirstPiece(s, i);
    CharStep(s, i, 1, budget, flags);
    CanonicalTail(Pending(s, i));
  }

  /** A ".." component uses up one unit of the budget. */
  lemma DotDotPiece(s: seq<byte>, i: nat, budget: nat, flags: Flags)
    requires CString(s) && i < |s| && AtStart(s, i) && s[i] == DOT && s[i + 1] == DOT && EndsAt(s, i + 2)
    ensures Normals(Pending(s, i)) == Normals(Pending(s, i + 2))
    ensures RestOk(s, i, budget, flags) <==> budget >= 1 && RestOk(s, i + 2, budget - 1, flags)
  {
    hide Split, CharLen, SafeFrom, Canonical;
    FirstPiece(s, i);
    CharStep(s, i, 1, budget, flags);
    CharStep(s, i + 1, 1, budget, flags);
    CanonicalTail(Pending(s, i));
  }

  /** A normal component is counted and ends the budget. */
  lemma NormalPiece(s: seq<byte>, i: nat, budget: nat, flags: Flags)
    requires CString(s) && i < |s| && AtStart(s, i) && s[i] != 0 && s[i] != SLASH
    requires !(s[i] == DOT && EndsAt(s, i + 1)) && !(s[i] == DOT && s[i + 1] == DOT && EndsAt(s, i + 2))
    ensures var cs := Pending(s, i)[1..];
            && Normals(Pending(s, i)) == 1 + Normals(cs)
            && (RestOk(s, i, budget, flags) <==>
                  && (flags.unsafeCharacters || SafeFrom(s, i))
                  && (flags.trailingSlash || s[|s| - 2] != SLASH)
                  && (flags.nonCanonicalPaths || Canonical(cs))
                  && RuleHolds(cs, 0))
  {
    hide Split, CharLen, SafeFrom, Canonical;
    FirstPiece(s, i);
    CanonicalTail(Pending(s, i));
  }

  lemma NothingPending(s: seq<byte>, i: nat)
    requires CString(s) && i < |s| && s[i] == 0
    ensures i == |s| - 1 && Normals(Pending(s, i)) == 0 && Canonical(Pending(s, i))
    ensures forall budget :: RuleHolds(Pending(s, i), budget)
  {
    assert Rest(s, i) == [];
    assert Normals([[]]) == Normals([]) == 0;
  }

  lemma EmptyPiece(s: seq<byte>, i: nat, budget: nat, flags: Flags)
    requires CString(s) && i < |s| && s[i] == SLASH && AtStart(s, i)
    ensures i + 1 < |s| && Pending(s, i) == [[]] + Pending(s, i + 1)
    ensures Normals(Pending(s, i)) == Normals(Pending(s, i + 1))
    ensures RestOk(s, i, budget, flags) <==> flags.nonCanonicalPaths && RestOk(s, i + 1, budget, flags)
  {
    hide Split, CharLen, SafeFrom;
    RestStep(s, i);
    SafeStep(s, i);
    var cs := Pending(s, i);
    assert cs[1..] == Pending(s, i + 1);
    assert cs[0] == [];
    CanonicalTail(cs);
    assert RuleHolds(cs, budget) == RuleHolds(cs[1..], budget);
  }

  lemma {:induction false} ScanCharMeaning(s: seq<byte>, i: nat, budget: nat, count: nat, flags: Flags)
    requires CString(s) && i < |s| && s[i] != 0 && (!AtStart(s, i) || s[i] != SLASH)
    ensures var cs := if AtStart(s, i) then Pending(s, i)[1..] else Pending(s, i);
            var ok := && (flags.unsafeCharacters || SafeFrom(s, i))
                      && (flags.trailingSlash || s[|s| - 2] != SLASH)
                      && (flags.nonCanonicalPaths || Canonical(cs))
                      && RuleHolds(cs, budget);
            && (ScanChar(s, i, budget, count, flags) >= 0 <==> ok)
            && (ok ==> ScanChar(s, i, budget, count, flags) == count + Normals(cs))
    decreases |s| - i, 0
  {
    hide Split, CharLen, SafeFrom, Canonical, RuleHolds, Normals;
    CharLenCovers(s, i);
    if Printable(s[i]) || flags.unsafeCharacters {
      CharStep(s, i, 1, budget, flags);
      ScanMeaning(s, i + 1, budget, count, flags);
    } else if CharLen(s, i) > 0 {
      CharStep(s, i, CharLen(s, i), budget, flags);
      ScanMeaning(s, i + CharLen(s, i), budget, count, flags);
    } else {
      UnsafeHere(s, i);
    }
  }

  lemma UnsafeHere(s: seq<byte>, i: nat)
    requires CString(s) && i < |s| && !Printable(s[i]) && CharLen(s, i) <= 0
    ensures !SafeFrom(s, i)
  {
    hide CharLen;
  }

  /** validate_path accepts exactly the acceptable strings, and counts their normal components. */
  lemma ScanPathMeetsSpecification(s: seq<byte>, budget: nat, flags: Flags)
    requires CString(s)
    ensures ScanPath(s, budget, flags) >= 0 <==> Acceptable(s, budget, flags)
    ensures Acceptable(s, budget, flags) ==> ScanPath(s, budget, flags) == Normals(Split(s[..|s| - 1]))
  {
    hide Split, CharLen, SafeFrom, Canonical, RuleHolds, DotDotsLead;
    var p := s[..|s| - 1];
    if s[0] == 0 {
      NothingPending(s, 0);
      assert Rest(s, 0) == p == [];
    } else if s[0] != SLASH {
      ScanMeaning(s, 0, budget, 0, flags);
      assert Rest(s, 0) == p;
      RuleMeaning(Split(p), budget);
    }
  }

  // ----- The wrappers -----

  /** qubes_pure_validate_file_name_v2: 0 or a negative errno. */
  function ValidateFileName(s: seq<byte>, flags: Flags): int
    requires CString(s)
  {
    if flags.unknown then -EINVAL
    else if ScanPath(s, 0, flags) > 0 then 0 else -EILSEQ
  }

  /** The flags a link target is judged by. */
  function TargetFlags(flags: Flags): Flags {
    flags.(nonCanonicalPaths := flags.nonCanonicalPaths || flags.nonCanonicalSymlinks, trailingSlash := true)
  }

  /** qubes_pure_validate_symbolic_link_v2: 0 or a negative errno. */
  function ValidateSymlink(name: seq<byte>, target: seq<byte>, flags: Flags): int
    requires CString(name) && CString(target)
  {
    var depth := ScanPath(name, 0, flags);
    if flags.unknown then -EINVAL
    else if depth < 0 then -EILSEQ
    else if flags.unsafeSymlinks then if depth > 0 then 0 else -ENOLINK
    else if depth < 2 then -ENOLINK
    else
      var res := ScanPath(target, depth - 2, TargetFlags(flags));
      if res < 0 then res else 0
  }

  function Content(s: seq<byte>): seq<byte>
    requires CString(s)
  {
    s[..|s| - 1]
  }

  /** A file name is accepted exactly when it is acceptable without ".." and names something. */
  lemma FileNameMeaning(s: seq<byte>, flags: Flags)
    requires CString(s)
    ensures ValidateFileName(s, flags) == 0 <==>
              !flags.unknown && Acceptable(s, 0, flags) && Normals(Split(Content(s))) > 0
  {
    hide Acceptable, ScanPath;
    ScanPathMeetsSpecification(s, 0, flags);
  }

  /** A link is accepted exactly when its name is acceptable and, with unsafe links allowed, names something; else when
      it has at least two components and the target is acceptable with two ".." fewer than that. */
  lemma SymlinkMeaning(name: seq<byte>, target: seq<byte>, flags: Flags)
    requires CString(name) && CString(target)
    ensures ValidateSymlink(name, target, flags) == 0 <==>
              var depth := Normals(Split(Content(name)));
              && !flags.unknown && Acceptable(name, 0, flags)
              && if flags.unsafeSymlinks then depth >= 1
                 else depth >= 2 && Acceptable(target, depth - 2, TargetFlags(flags))
  {
    hide Acceptable, ScanPath;
    ScanPathMeetsSpecification(name, 0, flags);
    var depth := Normals(Split(Content(name)));
    if depth >= 2 {
      ScanPathMeetsSpecification(target, depth - 2, TargetFlags(flags));
    }
  }

  const NO_FLAGS := Flags(false, false, false, false, false, false)
  const TRAILING_SLASH := NO_FLAGS.(trailingSlash := true)

  /** qubes_pure_validate_file_name, as written; pure.h describes it with NO_FLAGS instead. */
  predicate FileNameOk(s: seq<byte>)
    requires CString(s)
  {
    ValidateFileName(s, TRAILING_SLASH) == 0
  }

  /** Code and documentation differ exactly on the accepted names that end in a slash. */
  lemma DocumentedFlagsDiffer(s: seq<byte>)
    requires CString(s)
    ensures (FileNameOk(s) <==> ValidateFileName(s, NO_FLAGS) == 0)
       <==> !(FileNameOk(s) && Content(s) != [] && Content(s)[|s| - 2] == SLASH)
  {
    hide ValidateFileName, Split, SafeFrom, Canonical, DotDots, DotDotsLead, Normals;
    FileNameMeaning(s, TRAILING_SLASH);
    FileNameMeaning(s, NO_FLAGS);
  }

  /** An instance: "a/". */
  lemma DocumentedFlagsDifferOnSlash()
    ensures var s := [0x61, SLASH, 0];
            CString(s) && FileNameOk(s) && ValidateFileName(s, NO_FLAGS) != 0
  {
    var s: seq<byte> := [0x61, SLASH, 0];
    assert ScanChar(s, 1, 0, 1, TRAILING_SLASH) == Scan(s, 2, 0, 1, TRAILING_SLASH) == 1;
    assert ScanPath(s, 0, TRAILING_SLASH) == ScanChar(s, 0, 0, 1, TRAILING_SLASH);
    DocumentedFlagsDiffer(s);
  }

  // ----- Flag monotonicity -----

  /** f' permits at least what f permits, and no unknown bit is set in either. */
  predicate Permits(f: Flags, f': Flags) {
    && !f.unknown && !f'.unknown
    && (f.unsafeCharacters ==> f'.unsafeCharacters)
    && (f.nonCanonicalSymlinks ==> f'.nonCanonicalSymlinks)
    && (f.unsafeSymlinks ==> f'.unsafeSymlinks)
    && (f.nonCanonicalPaths ==> f'.nonCanonicalPaths)
    && (f.trailingSlash ==> f'.trailingSlash)
  }

  /** More flags and a larger budget accept the same string, with the same depth. */
  lemma ScanPathMonotone(s: seq<byte>, budget: nat, budget': nat, f: Flags, f': Flags)
    requires CString(s) && Permits(f, f') && budget <= budget' && ScanPath(s, budget, f) >= 0
    ensures ScanPath(s, budget', f') == ScanPath(s, budget, f)
  {
    hide SafeFrom, Canonical, DotDotsLead, ScanPath;
    ScanPathMeetsSpecification(s, budget, f);
    ScanPathMeetsSpecification(s, budget', f');
  }

  lemma FileNameMonotone(s: seq<byte>, f: Flags, f': Flags)
    requires CString(s) && Permits(f, f') && ValidateFileName(s, f) == 0
    ensures ValidateFileName(s, f') == 0
  {
    hide ScanPath;
    ScanPathMonotone(s, 0, 0, f, f');
  }

  lemma SymlinkMonotone(name: seq<byte>, target: seq<byte>, f: Flags, f': Flags)
    requires CString(name) && CString(target) && Permits(f, f') && ValidateSymlink(name, target, f) == 0
    ensures ValidateSymlink(name, target, f') == 0
  {
    hide ScanPath;
    ScanPathMonotone(name, 0, 0, f, f');
    if !f'.unsafeSymlinks {
      ScanPathMonotone(target, ScanPath(name, 0, f) - 2, ScanPath(name, 0, f) - 2, TargetFlags(f), TargetFlags(f'));
    }
  }

  // ----- Components of accepted names -----

  lemma {:induction false} JoinSplit(p: seq<byte>)
    ensures Join(Split(p)) == p
  {
    if p != [] {
      JoinSplit(p[1..]);
      var rest, cs := Split(p[1..]), Split(p);
      if p[0] == SLASH {
        assert cs[1..] == rest;
      } else if |rest| > 1 {
        assert cs[1..] == rest[1..];
      }
      assert p == [p[0]] + p[1..];
    }
  }

  lemma SplitLast(p: seq<byte>)
    requires |p| > 1
    ensures var cs, rest := Split(p), Split(p[1..]);
            || cs[|cs| - 1] == rest[|rest| - 1]
            || (p[0] != SLASH && |rest| == 1 && cs[|cs| - 1] == [p[0]] + rest[0])
  {
  }

  lemma {:induction false} LastPieceEmpty(p: seq<byte>)
    requires p != []
    ensures Split(p)[|Split(p)| - 1] == [] <==> p[|p| - 1] == SLASH
  {
    var rest := p[1..];
    if rest != [] {
      hide Split;
      LastPieceEmpty(rest);
      SplitLast(p);
      if |Split(rest)| == 1 {
        JoinSplit(rest);
      }
    } else {
      assert Split(rest) == [[]];
    }
  }

  lemma {:induction false} AllNormalCount(cs: seq<seq<byte>>)
    requires forall j :: 0 <= j < |cs| ==> IsNormal(cs[j])
    ensures Normals(cs) == |cs|
  {
    if cs != [] {
      AllNormalCount(cs[1..]);
    }
  }

  /** Without the non-canonical and trailing-slash flags, an accepted name is its normal components and nothing
      else. */
  lemma StrictNameComponents(s: seq<byte>, flags: Flags)
    requires CString(s) && !flags.nonCanonicalPaths && !flags.trailingSlash && ScanPath(s, 0, flags) >= 0
    ensures var cs := Split(Content(s));
            (forall j :: 0 <= j < |cs| ==> IsNormal(cs[j])) && ScanPath(s, 0, flags) == |cs|
  {
    hide ScanPath, SafeFrom, Split;
    ScanPathMeetsSpecification(s, 0, flags);
    var p := Content(s);
    var cs := Split(p);
    LastPieceEmpty(p);
    NoDotDots(cs);
    AllNormalCount(cs);
  }

  // ----- Splitting at a given slash -----

  lemma {:induction false} SplitAtSlash(c: seq<byte>, rest: seq<byte>)
    requires forall i :: 0 <= i < |c| ==> c[i] != SLASH
    ensures Split(c + [SLASH] + rest) == [c] + Split(rest)
  {
    var s := c + [SLASH] + rest;
    if c == [] {
      assert s[1..] == rest;
    } else {
      SplitAtSlash(c[1..], rest);
      assert s[1..] == c[1..] + [SLASH] + rest;
      assert ([c[1..]] + Split(rest))[1..] == Split(rest);
      assert [s[0]] + c[1..] == c;
    }
  }

  lemma {:induction false} SplitSingle(c: seq<byte>)
    requires forall i :: 0 <= i < |c| ==> c[i] != SLASH
    ensures Split(c) == [c]
  {
    if c != [] {
      SplitSingle(c[1..]);
      assert [c[0]] + c[1..] == c;
    }
  }
}
