/** Which error validate_path reports: ENOLINK for paths that lead elsewhere, EILSEQ for ones badly written. */
module PathFaults {
  import opened Bytes
  import opened Utf8
  import opened Display
  import opened Paths

  /** From index i on: characters, trailing slash and canonical form, without the ".." rule. */
  predicate FormOk(s: seq<byte>, i: nat, flags: Flags)
    requires CString(s) && i < |s|
  {
    && (flags.unsafeCharacters || s[i] == 0 || SafeFrom(s, i))
    && (flags.trailingSlash || |s| < 2 || s[|s| - 2] != SLASH)
    && (flags.nonCanonicalPaths || Canonical(Pending(s, i)))
  }

  lemma EmptyStep(s: seq<byte>, i: nat, budget: nat, flags: Flags)
    requires CString(s) && i < |s| && s[i] == SLASH && AtStart(s, i)
    ensures i + 1 < |s| && (FormOk(s, i, flags) <==> flags.nonCanonicalPaths && FormOk(s, i + 1, flags))
    ensures RuleHolds(Pending(s, i), budget) == RuleHolds(Pending(s, i + 1), budget)
  {
    hide Split, CharLen, SafeFrom, Pending;
    EmptyPiece(s, i, budget, flags);
    SafeStep(s, i);
    var cs := Pending(s, i);
    assert cs[0] == [] && cs[1..] == Pending(s, i + 1);
    CanonicalTail(cs);
    SplitNotEmpty(s, i + 1);
  }

  lemma SplitNotEmpty(s: seq<byte>, i: nat)
    requires CString(s) && i < |s| && AtStart(s, i)
    ensures Pending(s, i) != []
  {
  }

  lemma DotStep(s: seq<byte>, i: nat, budget: nat, flags: Flags)
    requires CString(s) && i < |s| && AtStart(s, i) && s[i] == DOT && EndsAt(s, i + 1)
    ensures FormOk(s, i, flags) <==> flags.nonCanonicalPaths && FormOk(s, i + 1, flags)
    ensures RuleHolds(Pending(s, i), budget) == RuleHolds(Pending(s, i + 1), budget)
  {
    hide Split, CharLen, SafeFrom, Canonical;
    FirstPiece(s, i);
    CharStep(s, i, 1, budget, flags);
    CanonicalTail(Pending(s, i));
  }

  lemma DotDotStep(s: seq<byte>, i: nat, budget: nat, flags: Flags)
    requires CString(s) && i < |s| && AtStart(s, i) && s[i] == DOT && s[i + 1] == DOT && EndsAt(s, i + 2)
    ensures FormOk(s, i, flags) <==> FormOk(s, i + 2, flags)
    ensures RuleHolds(Pending(s, i), budget) <==> budget >= 1 && RuleHolds(Pending(s, i + 2), budget - 1)
  {
    hide Split, CharLen, SafeFrom, Canonical;
    FirstPiece(s, i);
    CharStep(s, i, 1, budget, flags);
    CharStep(s, i + 1, 1, budget, flags);
    CanonicalTail(Pending(s, i));
  }

  /** In a component that is counted, or in the middle of one: n bytes of it are consumed. */
  lemma ComponentStep(s: seq<byte>, i: nat, n: nat, budget: nat, flags: Flags)
    requires CString(s) && i < |s| && s[i] != 0 && i + n < |s|
    requires if Printable(s[i]) || flags.unsafeCharacters then n == 1 else n == CharLen(s, i) > 0
    requires AtStart(s, i) ==> s[i] != SLASH && !(s[i] == DOT && EndsAt(s, i + 1))
                               && !(s[i] == DOT && s[i + 1] == DOT && EndsAt(s, i + 2))
    ensures FormOk(s, i, flags) <==> FormOk(s, i + n, flags)
    ensures RuleHolds(Pending(s, i), budget) <==> RuleHolds(Pending(s, i + n), if AtStart(s, i) then 0 else budget)
  {
    hide Split, CharLen, SafeFrom, Canonical;
    CharStep(s, i, n, budget, flags);
    if AtStart(s, i) {
      FirstPiece(s, i);
      CanonicalTail(Pending(s, i));
    }
  }

  /** What went wrong from index i on. */
  lemma {:induction false} ScanFault(s: seq<byte>, i: nat, budget: nat, count: nat, flags: Flags)
    requires CString(s) && i < |s| && (i == 0 ==> s[0] != 0 && s[0] != SLASH)
    ensures Scan(s, i, budget, count, flags) < 0 ==> Scan(s, i, budget, count, flags) in {-EILSEQ, -ENOLINK}
    ensures Scan(s, i, budget, count, flags) == -ENOLINK ==> !RuleHolds(Pending(s, i), budget)
    ensures Scan(s, i, budget, count, flags) == -EILSEQ ==> !FormOk(s, i, flags)
    decreases |s| - i, 1
  {
    hide Split, CharLen, SafeFrom, Canonical, EndsAt, RuleHolds, Pending, FormOk;
    if s[i] == 0 {
      EndFault(s, i, flags);
    } else if !AtStart(s, i) {
      CharFault(s, i, budget, budget, count, flags);
    } else if s[i] == SLASH {
      EmptyStep(s, i, budget, flags);
      ScanFault(s, i + 1, budget, count, flags);
    } else if s[i] == DOT && EndsAt(s, i + 1) {
      DotStep(s, i, budget, flags);
      ScanFault(s, i + 1, budget, count, flags);
    } else if s[i] == DOT && s[i + 1] == DOT && EndsAt(s, i + 2) {
      DotDotStep(s, i, budget, flags);
      if budget >= 1 {
        ScanFault(s, i + 2, budget - 1, count, flags);
      }
    } else {
      CharFault(s, i, budget, 0, count + 1, flags);
    }
  }

  lemma EndFault(s: seq<byte>, i: nat, flags: Flags)
    requires CString(s) && 0 < i < |s| && s[i] == 0
    ensures !flags.trailingSlash && s[i - 1] == SLASH ==> !FormOk(s, i, flags)
  {
  }

  lemma {:induction false} CharFault(s: seq<byte>, i: nat, before: nat, budget: nat, count: nat, flags: Flags)
    requires CString(s) && i < |s| && s[i] != 0 && budget == (if AtStart(s, i) then 0 else before)
    requires AtStart(s, i) ==> s[i] != SLASH && !(s[i] == DOT && EndsAt(s, i + 1))
                               && !(s[i] == DOT && s[i + 1] == DOT && EndsAt(s, i + 2))
    ensures ScanChar(s, i, budget, count, flags) < 0 ==> ScanChar(s, i, budget, count, flags) in {-EILSEQ, -ENOLINK}
    ensures ScanChar(s, i, budget, count, flags) == -ENOLINK ==> !RuleHolds(Pending(s, i), before)
    ensures ScanChar(s, i, budget, count, flags) == -EILSEQ ==> !FormOk(s, i, flags)
    decreases |s| - i, 0
  {
    hide Split, CharLen, SafeFrom, Canonical, RuleHolds, Pending, EndsAt;
    CharLenCovers(s, i);
    if Printable(s[i]) || flags.unsafeCharacters {
      ComponentStep(s, i, 1, before, flags);
      ScanFault(s, i + 1, budget, count, flags);
    } else if CharLen(s, i) > 0 {
      ComponentStep(s, i, CharLen(s, i), before, flags);
      ScanFault(s, i + CharLen(s, i), budget, count, flags);
    } else {
      UnsafeHere(s, i);
    }
  }

  /** ENOLINK: the path is empty, absolute, or its ".." go too far or come too late. EILSEQ: its characters, its
      trailing slash or its form are at fault. There is no other error. */
  lemma ErrorHasReason(s: seq<byte>, budget: nat, flags: Flags)
    requires CString(s) && ScanPath(s, budget, flags) < 0
    ensures var p, r := Content(s), ScanPath(s, budget, flags); var cs := Split(p);
            && (r == -67 || r == -84)
            && (p == [] || p[0] == SLASH ==> r == -67)
            && (r == -67 ==> p == [] || p[0] == SLASH || DotDots(cs) > budget || !DotDotsLead(cs))
            && (r == -84 ==> || (!flags.unsafeCharacters && !SafeFrom(s, 0))
                             || (!flags.trailingSlash && p[|p| - 1] == SLASH)
                             || (!flags.nonCanonicalPaths && !Canonical(cs)))
  {
    hide Split, CharLen, SafeFrom, Canonical, RuleHolds, DotDotsLead;
    if s[0] != 0 && s[0] != SLASH {
      ScanFault(s, 0, budget, 0, flags);
      assert Rest(s, 0) == Content(s);
      RuleMeaning(Split(Content(s)), budget);
    }
  }

  /** The errors of the two functions that callers use: EINVAL for unknown flags; EILSEQ for a bad name; for a link
      ENOLINK if its name is not deep enough, and otherwise the error of its target. */
  lemma WrapperErrors(name: seq<byte>, target: seq<byte>, flags: Flags)
    requires CString(name) && CString(target)
    ensures flags.unknown ==> ValidateFileName(name, flags) == ValidateSymlink(name, target, flags) == -22
    ensures !flags.unknown ==> ValidateFileName(name, flags) in {0, -84}
    ensures !flags.unknown && !Acceptable(name, 0, flags) ==> ValidateSymlink(name, target, flags) == -84
    ensures !flags.unknown && Acceptable(name, 0, flags) ==>
              var depth, r := Normals(Split(Content(name))), ValidateSymlink(name, target, flags);
              if flags.unsafeSymlinks then r == if depth >= 1 then 0 else -67
              else if depth < 2 then r == -67
              else r == 0 || r == ScanPath(target, depth - 2, TargetFlags(flags)) < 0
  {
    hide ScanPath, Acceptable, Split, Normals;
    ScanPathMeetsSpecification(name, 0, flags);
  }
}
