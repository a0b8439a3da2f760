/** What the receiver lets through, in terms of its own flags and limits. */
module ReceiverRules {
  import opened Bytes
  import opened Crc32
  import opened Allowlist
  import opened Utf8
  import opened Display
  import opened Paths
  import opened PathFaults
  import opened Wire
  import opened FileSystem
  import opened Unpack

  // ----- Names and link targets -----

  /** Allowlisted code points in UTF-8. */
  ghost predicate SafeText(p: seq<byte>) {
    exists cps :: AllSafe(cps) && p == EncodeAll(cps)
  }

  /** A name: components that are neither empty nor "." nor "..", of safe text unless that is waived. */
  ghost predicate NameRule(flags: CopyFlags, s: seq<byte>)
    requires CString(s)
  {
    var p := Content(s);
    && p != [] && (forall j :: 0 <= j < |Split(p)| ==> IsNormal(Split(p)[j]))
    && (flags.unsafeCharacters || SafeText(p))
  }

  /** A relative target of safe text, canonical unless that is waived, with at most `budget` ".." and those in front. */
  ghost predicate TargetRule(flags: CopyFlags, s: seq<byte>, budget: nat)
    requires CString(s)
  {
    var p := Content(s);
    if p == [] then flags.nonCanonicalSymlinks
    else
      && p[0] != SLASH && (flags.unsafeCharacters || SafeText(p))
      && (flags.nonCanonicalSymlinks || Canonical(Split(p)))
      && DotDots(Split(p)) <= budget && DotDotsLead(Split(p))
  }

  /** A link: any target where unsafe links are allowed; else one that stays below the top-level entry. */
  ghost predicate LinkRule(flags: CopyFlags, name: seq<byte>, target: seq<byte>)
    requires CString(name) && CString(target)
  {
    && NameRule(flags, name)
    && (flags.unsafeSymlinks
        || (|Split(Content(name))| >= 2 && TargetRule(flags, target, |Split(Content(name))| - 2)))
  }

  lemma SafeTextExactly(s: seq<byte>)
    requires CString(s) && Content(s) != []
    ensures SafeFrom(s, 0) <==> SafeText(Content(s))
  {
    hide SafeFrom, EncodeAll, SafeForDisplay;
    SafeMeansAllowlistedText(s);
    assert s == Content(s) + [0];
    EncodeNothing();
    if cps :| AllSafe(cps) && Content(s) == EncodeAll(cps) {
      assert cps != [] && s == EncodeAll(cps) + [0];
    }
    if SafeFrom(s, 0) {
      var cps :| cps != [] && AllSafe(cps) && s == EncodeAll(cps) + [0];
      assert Content(s) == EncodeAll(cps);
    }
  }

  lemma EncodeNothing()
    ensures EncodeAll([]) == []
  {
  }

  lemma FirstPieceAtSlash(p: seq<byte>)
    requires p != []
    ensures p[0] == SLASH ==> Split(p)[0] == []
  {
  }

  /** Normal components throughout are all that the strict form of the path rule asks for. */
  lemma NormalIsAcceptable(s: seq<byte>, flags: Flags)
    requires CString(s) && Content(s) != [] && !flags.nonCanonicalPaths && !flags.trailingSlash
    requires var cs := Split(Content(s)); forall j :: 0 <= j < |cs| ==> IsNormal(cs[j])
    ensures Acceptable(s, 0, flags) <==> flags.unsafeCharacters || SafeFrom(s, 0)
    ensures Normals(Split(Content(s))) == |Split(Content(s))| >= 1
  {
    hide Split, SafeFrom, DotDots, Normals;
    var p := Content(s);
    var cs := Split(p);
    FirstPieceAtSlash(p);
    LastPieceEmpty(p);
    NoDotDots(cs);
    AllNormalCount(cs);
  }

  lemma NameRuleExactly(flags: CopyFlags, s: seq<byte>)
    requires CString(s)
    ensures ValidateFileName(s, NameFlags(flags)) == 0 <==> NameRule(flags, s)
    ensures NameRule(flags, s) ==> ScanPath(s, 0, NameFlags(flags)) == |Split(Content(s))| >= 1
  {
    hide Split, SafeFrom, Acceptable, Normals, SafeText, ScanPath;
    var f, p := NameFlags(flags), Content(s);
    ScanPathMeetsSpecification(s, 0, f);
    if p != [] {
      SafeTextExactly(s);
    } else {
      EmptyIsRefused(s, f);
    }
    if ScanPath(s, 0, f) >= 0 {
      StrictNameComponents(s, f);
    }
    if p != [] && forall j :: 0 <= j < |Split(p)| ==> IsNormal(Split(p)[j]) {
      NormalIsAcceptable(s, f);
    }
  }

  lemma EmptyIsRefused(s: seq<byte>, flags: Flags)
    requires CString(s) && Content(s) == [] && !flags.nonCanonicalPaths
    ensures ScanPath(s, 0, flags) < 0
  {
  }

  lemma TargetRuleExactly(flags: CopyFlags, s: seq<byte>, budget: nat)
    requires CString(s)
    ensures Acceptable(s, budget, TargetFlags(NameFlags(flags))) <==> TargetRule(flags, s, budget)
  {
    hide Split, SafeFrom, SafeText, Canonical, DotDots, DotDotsLead;
    if Content(s) != [] {
      SafeTextExactly(s);
    }
  }

  lemma LinkRuleExactly(flags: CopyFlags, name: seq<byte>, target: seq<byte>)
    requires CString(name) && CString(target)
    ensures ValidateSymlink(name, target, NameFlags(flags)) == 0 <==> LinkRule(flags, name, target)
  {
    hide Split, Acceptable, ScanPath, NameRule, TargetRule;
    var f := NameFlags(flags);
    NameRuleExactly(flags, name);
    var depth := ScanPath(name, 0, f);
    if depth >= 2 {
      ScanPathMeetsSpecification(target, depth - 2, TargetFlags(f));
      TargetRuleExactly(flags, target, depth - 2);
    }
  }

  // ----- Components of safe text are safe text -----

  lemma SplitFirst(p: seq<byte>)
    requires p != [] && p[0] != SLASH
    ensures Split(p) == [[p[0]] + Split(p[1..])[0]] + Split(p[1..])[1..]
  {
  }

  lemma {:induction false} SplitPrefix(c: seq<byte>, rest: seq<byte>)
    requires forall i :: 0 <= i < |c| ==> c[i] != SLASH
    ensures Split(c + rest) == [c + Split(rest)[0]] + Split(rest)[1..]
    decreases |c|
  {
    hide Split;
    if c == [] {
      assert c + rest == rest && c + Split(rest)[0] == Split(rest)[0];
    } else {
      var head, tail := Split(rest)[0], Split(rest)[1..];
      SplitPrefix(c[1..], rest);
      var cs := [c[1..] + head] + tail;
      assert cs[0] == c[1..] + head && cs[1..] == tail;
      assert (c + rest)[1..] == c[1..] + rest && (c + rest)[0] == c[0];
      SplitFirst(c + rest);
      assert [c[0]] + (c[1..] + head) == c + head;
    }
  }

  lemma EncodedBytes(cp: int)
    requires SafeForDisplay(cp) && cp != 0x2F
    ensures forall i :: 0 <= i < |Encode(cp)| ==> Encode(cp)[i] != SLASH
  {
    hide SafeForDisplay;
  }

  lemma JoinSafe(cp: int, p: seq<byte>)
    requires SafeForDisplay(cp) && SafeText(p)
    ensures SafeText(Encode(cp) + p)
  {
    hide SafeForDisplay, Encode, EncodeAll;
    var cps :| AllSafe(cps) && p == EncodeAll(cps);
    EncodeOneMore(cp, cps);
    assert AllSafe([cp] + cps);
  }

  ghost predicate AllText(cs: seq<seq<byte>>) {
    forall j :: 0 <= j < |cs| ==> SafeText(cs[j])
  }

  lemma {:induction false} PiecesOfSafeText(cps: seq<int>)
    requires AllSafe(cps)
    ensures AllText(Split(EncodeAll(cps)))
    decreases |cps|
  {
    hide SafeForDisplay, Encode, Split, SafeText, EncodeAll;
    EncodeNothing();
    SafeNothing();
    if cps == [] {
      SplitNothing();
    } else {
      var cp, rest := cps[0], cps[1..];
      assert SafeForDisplay(cp);
      PiecesOfSafeText(rest);
      assert cps == [cp] + rest;
      EncodeOneMore(cp, rest);
      var tail := EncodeAll(rest);
      if cp == 0x2F {
        SlashEncoded();
        SplitAtSlash([], tail);
        assert [] + [SLASH] + tail == [SLASH] + tail;
      } else {
        EncodedBytes(cp);
        SplitPrefix(Encode(cp), tail);
        JoinSafe(cp, Split(tail)[0]);
      }
    }
  }

  lemma SafeNothing()
    ensures SafeText([])
  {
    assert AllSafe([]) && EncodeAll([]) == [];
  }

  lemma SplitNothing()
    ensures Split([]) == [[]]
  {
  }

  lemma SlashEncoded()
    ensures Encode(0x2F) == [SLASH]
  {
  }

  lemma SafePieces(p: seq<byte>)
    requires SafeText(p)
    ensures AllText(Split(p))
  {
    hide AllText;
    var cps :| AllSafe(cps) && p == EncodeAll(cps);
    PiecesOfSafeText(cps);
  }

  lemma {:induction false} EncodeConcat(a: seq<int>, b: seq<int>)
    requires AllSafe(a) && AllSafe(b)
    ensures AllSafe(a + b) && EncodeAll(a + b) == EncodeAll(a) + EncodeAll(b)
  {
    hide SafeForDisplay, Encode;
    if a == [] {
      assert a + b == b;
    } else {
      EncodeConcat(a[1..], b);
      assert a + b == [a[0]] + (a[1..] + b);
      assert SafeForDisplay(a[0]);
      EncodeOneMore(a[0], a[1..] + b);
      EncodeOneMore(a[0], a[1..]);
      assert [a[0]] + a[1..] == a;
    }
  }

  lemma TextConcat(a: seq<byte>, b: seq<byte>)
    requires SafeText(a) && SafeText(b)
    ensures SafeText(a + b)
  {
    hide SafeForDisplay, EncodeAll;
    var x :| AllSafe(x) && a == EncodeAll(x);
    var y :| AllSafe(y) && b == EncodeAll(y);
    EncodeConcat(x, y);
  }

  lemma SlashIsText()
    ensures SafeText([SLASH])
  {
    assert AllSafe([0x2F]);
    assert [0x2F][1..] == [];
    assert EncodeAll([0x2F]) == [SLASH] + [];
  }

  /** Safe components make a safe path. */
  lemma {:induction false} JoinIsText(p: seq<seq<byte>>)
    requires p != [] && AllText(p)
    ensures SafeText(Join(p))
  {
    hide SafeText;
    if |p| > 1 {
      JoinIsText(p[1..]);
      SlashIsText();
      TextConcat(p[0], [SLASH]);
      TextConcat(p[0] + [SLASH], Join(p[1..]));
    }
  }

  // ----- The flags, over whole runs -----

  /** A path made of proper names, of safe text unless that is waived. */
  ghost predicate PathPermitted(flags: CopyFlags, p: Path) {
    forall j :: 0 <= j < |p| ==> IsNormal(p[j]) && (flags.unsafeCharacters || SafeText(p[j]))
  }

  /** A node of a kind that is allowed; links with proper targets unless that is waived. */
  ghost predicate NodePermitted(flags: CopyFlags, node: Node) {
    match node
    case File(_, _, _) => true
    case Dir(_, _) => flags.directories
    case Link(target) =>
      && flags.symlinks
      && (flags.unsafeSymlinks || flags.unsafeCharacters || SafeText(target))
      && (flags.unsafeSymlinks || flags.nonCanonicalSymlinks || Canonical(Split(target)))
  }

  ghost predicate Permitted(flags: CopyFlags, fs: Tree) {
    forall p :: p in fs ==> PathPermitted(flags, p) && NodePermitted(flags, fs[p])
  }

  lemma CreatePermitted(flags: CopyFlags, fs: Tree, p: Path, node: Node)
    requires Permitted(flags, fs) && p != [] && PathPermitted(flags, p) && NodePermitted(flags, node)
    ensures Permitted(flags, Create(fs, p, node)) && Permitted(flags, fs[p := node])
  {
    hide PathPermitted, SafeText, Canonical, Split;
  }

  lemma NamePermitted(flags: CopyFlags, name: seq<byte>)
    requires CString(name) && ValidateFileName(name, NameFlags(flags)) == 0
    ensures PathPermitted(flags, Components(name))
  {
    hide Split, ValidateFileName, SafeText;
    NameRuleExactly(flags, name);
    if !flags.unsafeCharacters {
      SafePieces(Content(name));
    }
  }

  lemma TargetPermitted(flags: CopyFlags, name: seq<byte>, target: seq<byte>)
    requires CString(name) && CString(target) && Content(target) != [] && flags.symlinks
    requires ValidateSymlink(name, target, NameFlags(flags)) == 0
    ensures PathPermitted(flags, Components(name)) && NodePermitted(flags, Link(Content(target)))
  {
    hide Split, ValidateSymlink, SafeText, PathPermitted, Canonical, ValidateFileName;
    LinkRuleExactly(flags, name, target);
    NameRuleExactly(flags, name);
    NamePermitted(flags, name);
  }

  lemma RegKeepsPermitted(cfg: Config, st: State, h: FileHeader, name: seq<byte>, input: seq<byte>)
    requires CString(name) && Permitted(cfg.flags, st.fs)
    ensures Permitted(cfg.flags, ReceiveReg(cfg, st, h, name, input).st.fs)
  {
    hide OpenPrefixErrno, Split, ValidateFileName, Create, CreateErrno, Permitted, PathPermitted;
    if ValidateFileName(name, NameFlags(cfg.flags)) == 0 {
      var p := Components(name);
      NamePermitted(cfg.flags, name);
      var data := input[..Min(h.filelen, |input|)];
      var fs := Create(st.fs, p, File(0, None, []));
      CreatePermitted(cfg.flags, st.fs, p, File(0, None, []));
      CreatePermitted(cfg.flags, fs, p, File(0, None, data));
      CreatePermitted(cfg.flags, fs[p := File(0, None, data)], p, File(h.mode % 4096, Some(HeaderTimes(h)), data));
    }
  }

  lemma LinkKeepsPermitted(cfg: Config, st: State, h: FileHeader, name: seq<byte>, input: seq<byte>)
    requires CString(name) && Permitted(cfg.flags, st.fs) && cfg.flags.symlinks
    ensures Permitted(cfg.flags, ReceiveLink(cfg, st, h, name, input).st.fs)
  {
    hide OpenPrefixErrno, Split, ValidateSymlink, Create, CreateErrno, Permitted, PathPermitted, NodePermitted,
         AsCString;
    if h.filelen <= |input| {
      var target := AsCString(input[..h.filelen]);
      if Content(target) != [] && ValidateSymlink(name, target, NameFlags(cfg.flags)) == 0 {
        TargetPermitted(cfg.flags, name, target);
        CreatePermitted(cfg.flags, st.fs, Components(name), Link(Content(target)));
      }
    }
  }

  lemma DirKeepsPermitted(cfg: Config, st: State, h: FileHeader, name: seq<byte>)
    requires CString(name) && Permitted(cfg.flags, st.fs) && cfg.flags.directories
    ensures Permitted(cfg.flags, ReceiveDir(cfg, st, h, name).st.fs)
  {
    hide OpenPrefixErrno, Split, ValidateFileName, Create, CreateErrno, Permitted, PathPermitted;
    if ValidateFileName(name, NameFlags(cfg.flags)) == 0 {
      NamePermitted(cfg.flags, name);
      CreatePermitted(cfg.flags, st.fs, Components(name), Dir(MODE_RWX, None));
      CreatePermitted(cfg.flags, st.fs, Components(name), Dir(h.mode % 4096, Some(HeaderTimes(h))));
    }
  }

  lemma RecordKeepsPermitted(cfg: Config, st: State, h: FileHeader, input: seq<byte>)
    requires Permitted(cfg.flags, st.fs)
    ensures Permitted(cfg.flags, ReceiveRecord(cfg, st, h, input).st.fs)
  {
    hide ReceiveReg, ReceiveLink, ReceiveDir, AsCString, Permitted;
    if h.namelen <= MAX_PATH_LENGTH - 1 && h.namelen <= |input| {
      var name := input[..h.namelen];
      var st' := st.(crc := Crc(st.crc, name));
      RegKeepsPermitted(cfg, st', h, AsCString(name), input[h.namelen..]);
      if cfg.flags.symlinks {
        LinkKeepsPermitted(cfg, st', h, AsCString(name), input[h.namelen..]);
      }
      if cfg.flags.directories {
        DirKeepsPermitted(cfg, st', h, AsCString(name));
      }
    }
  }

  lemma {:induction false} RunKeepsPermitted(cfg: Config, st: State, input: seq<byte>)
    requires Permitted(cfg.flags, st.fs)
    ensures Permitted(cfg.flags, Run(cfg, st, input).st.fs)
    decreases |input|
  {
    hide ReceiveRecord, ParseFileHeader, BodyLength, Permitted;
    if |input| >= HEADER_SIZE {
      var h, st1, rest := ParseFileHeader(input), Counted(AfterHeader(st, input[..HEADER_SIZE])), input[HEADER_SIZE..];
      RecordKeepsPermitted(cfg, st1, h, rest);
      var r := ReceiveRecord(cfg, st1, h, rest);
      if r.Next? {
        RunKeepsPermitted(cfg, r.st, rest[BodyLength(h)..]);
      }
    }
  }

  /** Whatever is sent, and however the run ends, the files respect the flags. */
  lemma FlagsHonoured(cfg: Config, input: seq<byte>)
    ensures Permitted(cfg.flags, UnpackStream(cfg, input).st.fs)
  {
    hide Run;
    RunKeepsPermitted(cfg, START, input);
  }

  // ----- Which records are accepted -----

  /** q is a directory that can be opened and, to go further, searched. */
  predicate Opens(fs: Tree, q: Path, further: bool) {
    q in fs && fs[q].Dir? && Readable(fs[q].mode) && (further ==> Searchable(fs[q].mode))
  }

  /** The first n components of p can be opened one after the other. */
  ghost predicate ParentsOpen(fs: Tree, p: Path, n: nat)
    requires n < |p|
  {
    forall i :: 0 < i <= n ==> Opens(fs, p[..i], i < n)
  }

  lemma {:induction false} ParentsOpenExactly(fs: Tree, p: Path, n: nat)
    requires n < |p|
    ensures OpenPrefixErrno(fs, p, n) == 0 <==> ParentsOpen(fs, p, n)
    ensures OpenPrefixErrno(fs, p, n) in {0, 2, 13, 20}
  {
    hide Readable, Searchable;
    if n > 0 {
      ParentsOpenExactly(fs, p, n - 1);
      assert p[..n - 1] + [p[n - 1]] == p[..n];
      assert OpenDirErrno(fs, p[..n - 1], p[n - 1]) == 0
        <==> Opens(fs, p[..n], false) && (n == 1 || CanSearch(fs, p[..n - 1]));
      if OpenPrefixErrno(fs, p, n) == 0 {
        assert n > 1 ==> Opens(fs, p[..n - 1], (n - 1) < n - 1);
        forall i | 0 < i <= n ensures Opens(fs, p[..i], i < n) {
          assert i < n ==> Opens(fs, p[..i], i < n - 1);
        }
      }
      if ParentsOpen(fs, p, n) {
        assert Opens(fs, p[..n], n < n);
        assert n > 1 ==> Opens(fs, p[..n - 1], n - 1 < n);
        forall i | 0 < i <= n - 1 ensures Opens(fs, p[..i], i < n - 1) {
          assert Opens(fs, p[..i], i < n);
        }
      }
    }
  }

  /** The directory that p is in lets entries be reached, and added. */
  predicate Reachable(fs: Tree, p: Path)
    requires p != []
  {
    |p| == 1 || (p[..|p| - 1] in fs && fs[p[..|p| - 1]].Dir? && Searchable(fs[p[..|p| - 1]].mode))
  }

  predicate Addable(fs: Tree, p: Path)
    requires p != []
  {
    |p| == 1 || (p[..|p| - 1] in fs && fs[p[..|p| - 1]].Dir? && Writable(fs[p[..|p| - 1]].mode))
  }

  ghost predicate RegRule(cfg: Config, st: State, h: FileHeader, name: seq<byte>, input: seq<byte>)
    requires CString(name)
  {
    var p := Components(name);
    && NameRule(cfg.flags, name) && ParentsOpen(st.fs, p, |p| - 1)
    && p !in st.fs && Reachable(st.fs, p) && Addable(st.fs, p)
    && h.filelen <= 0x7FFF_FFFF_FFFF_FFFF && h.filelen <= |input|
    && (cfg.bytesLimit == 0 || st.totalBytes + h.filelen <= cfg.bytesLimit)
    && h.atimeNsec < 1_000_000_000 && h.mtimeNsec < 1_000_000_000
  }

  ghost predicate LnkRule(cfg: Config, st: State, h: FileHeader, name: seq<byte>, input: seq<byte>)
    requires CString(name)
  {
    var p := Components(name);
    && h.filelen < 16384 && h.filelen <= |input|
    && LinkRule(cfg.flags, name, AsCString(input[..h.filelen])) && Content(AsCString(input[..h.filelen])) != []
    && ParentsOpen(st.fs, p, |p| - 1) && p !in st.fs && Reachable(st.fs, p) && Addable(st.fs, p)
    && (cfg.bytesLimit == 0 || (st.totalBytes + h.filelen) % TWO64 <= cfg.bytesLimit)
  }

  ghost predicate DirRule(cfg: Config, st: State, h: FileHeader, name: seq<byte>)
    requires CString(name)
  {
    var p := Components(name);
    && NameRule(cfg.flags, name) && ParentsOpen(st.fs, p, |p| - 1) && Reachable(st.fs, p)
    && (if p in st.fs then
          && st.fs[p].Dir? && Readable(st.fs[p].mode)
          && h.atimeNsec < 1_000_000_000 && h.mtimeNsec < 1_000_000_000
        else Addable(st.fs, p))
  }

  /** A record with its name and payload complete, of a kind that is allowed, under a proper name that is free (or a
      directory's second visit), within the limits. */
  ghost predicate RecordRule(cfg: Config, st: State, h: FileHeader, input: seq<byte>) {
    && h.namelen < 16384 && h.namelen <= |input|
    && var name, rest, kind := AsCString(input[..h.namelen]), input[h.namelen..], h.mode / 4096 % 16;
       || (kind == 8 && RegRule(cfg, st, h, name, rest))
       || (kind == 10 && cfg.flags.symlinks && LnkRule(cfg, st, h, name, rest))
       || (kind == 4 && cfg.flags.directories && DirRule(cfg, st, h, name))
  }

  lemma CreateExactly(fs: Tree, p: Path)
    requires p != []
    ensures CreateErrno(fs, p) == 0 <==> p !in fs && Reachable(fs, p) && Addable(fs, p)
    ensures CreateErrno(fs, p) == EEXIST <==> p in fs && Reachable(fs, p)
  {
    hide Writable, Searchable;
  }

  lemma RegExactly(cfg: Config, st: State, h: FileHeader, name: seq<byte>, input: seq<byte>)
    requires CString(name)
    ensures ReceiveReg(cfg, st, h, name, input).Next? <==> RegRule(cfg, st, h, name, input)
  {
    hide OpenPrefixErrno, Split, ValidateFileName, Create, CreateErrno, NameRule, ParentsOpen, Reachable, Addable;
    var p := Components(name);
    NameRuleExactly(cfg.flags, name);
    ParentsOpenExactly(st.fs, p, |p| - 1);
    CreateExactly(st.fs, p);
  }

  lemma LnkExactly(cfg: Config, st: State, h: FileHeader, name: seq<byte>, input: seq<byte>)
    requires CString(name)
    ensures ReceiveLink(cfg, st, h, name, input).Next? <==> LnkRule(cfg, st, h, name, input)
  {
    hide OpenPrefixErrno, Split, ValidateSymlink, Create, CreateErrno, LinkRule, ParentsOpen, Reachable, Addable,
         AsCString;
    var p := Components(name);
    if h.filelen <= |input| {
      LinkRuleExactly(cfg.flags, name, AsCString(input[..h.filelen]));
    }
    ParentsOpenExactly(st.fs, p, |p| - 1);
    CreateExactly(st.fs, p);
  }

  lemma DirExactly(cfg: Config, st: State, h: FileHeader, name: seq<byte>)
    requires CString(name)
    ensures ReceiveDir(cfg, st, h, name).Next? <==> DirRule(cfg, st, h, name)
  {
    hide OpenPrefixErrno, Split, ValidateFileName, Create, CreateErrno, NameRule, ParentsOpen, Reachable, Addable;
    var p := Components(name);
    NameRuleExactly(cfg.flags, name);
    ParentsOpenExactly(st.fs, p, |p| - 1);
    CreateExactly(st.fs, p);
  }

  /** Exactly these records are accepted. */
  lemma RecordAcceptedExactly(cfg: Config, st: State, h: FileHeader, input: seq<byte>)
    ensures ReceiveRecord(cfg, st, h, input).Next? <==> RecordRule(cfg, st, h, input)
  {
    hide ReceiveReg, ReceiveLink, ReceiveDir, AsCString, RegRule, LnkRule, DirRule;
    if h.namelen <= MAX_PATH_LENGTH - 1 && h.namelen <= |input| {
      var bytes, rest := input[..h.namelen], input[h.namelen..];
      var name, named := AsCString(bytes), st.(crc := Crc(st.crc, bytes));
      RuleIgnoresCrc(cfg, st, named, h, name, rest);
      RegExactly(cfg, named, h, name, rest);
      LnkExactly(cfg, named, h, name, rest);
      DirExactly(cfg, named, h, name);
    }
  }

  lemma RuleIgnoresCrc(cfg: Config, st: State, st': State, h: FileHeader, name: seq<byte>, input: seq<byte>)
    requires CString(name) && st'.fs == st.fs && st'.totalBytes == st.totalBytes
    ensures RegRule(cfg, st, h, name, input) <==> RegRule(cfg, st', h, name, input)
    ensures LnkRule(cfg, st, h, name, input) <==> LnkRule(cfg, st', h, name, input)
    ensures DirRule(cfg, st, h, name) <==> DirRule(cfg, st', h, name)
  {
    hide NameRule, LinkRule, ParentsOpen, Reachable, Addable, AsCString;
  }

  // ----- What a status says -----

  lemma NameCodes(s: seq<byte>, flags: CopyFlags)
    requires CString(s)
    ensures ValidateFileName(s, NameFlags(flags)) in {0, -84}
  {
    hide ScanPath;
  }

  lemma LinkCodes(name: seq<byte>, target: seq<byte>, flags: CopyFlags)
    requires CString(name) && CString(target)
    ensures ValidateSymlink(name, target, NameFlags(flags)) in {0, -84, -67}
  {
    hide ScanPath, Split;
    var f := NameFlags(flags);
    var depth := ScanPath(name, 0, f);
    if depth >= 2 && ScanPath(target, depth - 2, TargetFlags(f)) < 0 {
      ErrorHasReason(target, depth - 2, TargetFlags(f));
    }
  }

  /** The status of a refused file and its reason. The numbers are those of errno(3), and LEGAL_EOF. */
  ghost predicate RegReason(cfg: Config, st: State, h: FileHeader, name: seq<byte>, input: seq<byte>, code: int)
    requires CString(name)
  {
    var p := Components(name);
    match code
    case 84 => !NameRule(cfg.flags, name)
    case 17 => p in st.fs
    case 122 => h.filelen > 0x7FFF_FFFF_FFFF_FFFF
                || (cfg.bytesLimit != 0 && st.totalBytes + h.filelen > cfg.bytesLimit)
    case 31415926 => |input| < h.filelen
    case 1 => h.atimeNsec >= 1_000_000_000 || h.mtimeNsec >= 1_000_000_000
    case _ => code in {2, 13, 20} && (!ParentsOpen(st.fs, p, |p| - 1) || !Reachable(st.fs, p) || !Addable(st.fs, p))
  }

  ghost predicate LnkReason(cfg: Config, st: State, h: FileHeader, name: seq<byte>, input: seq<byte>, code: int)
    requires CString(name)
  {
    var p, target := Components(name), AsCString(input[..Min(h.filelen, |input|)]);
    match code
    case 36 => h.filelen >= 16384
    case 122 => cfg.bytesLimit != 0 && (st.totalBytes + h.filelen) % TWO64 > cfg.bytesLimit
    case 31415926 => |input| < h.filelen
    case 84 => !LinkRule(cfg.flags, name, target)
    case 67 => !LinkRule(cfg.flags, name, target)
    case 17 => p in st.fs
    case _ =>
      && code in {2, 13, 20}
      && (!ParentsOpen(st.fs, p, |p| - 1) || !Reachable(st.fs, p) || !Addable(st.fs, p) || Content(target) == [])
  }

  ghost predicate DirReason(cfg: Config, st: State, h: FileHeader, name: seq<byte>, code: int)
    requires CString(name)
  {
    var p := Components(name);
    match code
    case -84 => !NameRule(cfg.flags, name)
    case 1 => p in st.fs && (h.atimeNsec >= 1_000_000_000 || h.mtimeNsec >= 1_000_000_000)
    case _ =>
      && code in {2, 13, 20}
      && (|| !ParentsOpen(st.fs, p, |p| - 1) || !Reachable(st.fs, p) || !Addable(st.fs, p)
          || (p in st.fs && !(st.fs[p].Dir? && Readable(st.fs[p].mode))))
  }

  lemma CreateCodes(fs: Tree, p: Path)
    requires p != []
    ensures CreateErrno(fs, p) in {0, 13, 17}
    ensures CreateErrno(fs, p) == 13 ==> !Reachable(fs, p) || !Addable(fs, p)
  {
    hide Writable, Searchable;
  }

  lemma RegStatus(cfg: Config, st: State, h: FileHeader, name: seq<byte>, input: seq<byte>)
    requires CString(name) && ReceiveReg(cfg, st, h, name, input).Stop?
    ensures var r := ReceiveReg(cfg, st, h, name, input);
            RegReason(cfg, st, h, name, input, r.code) && (r.reported <==> r.code != 1)
  {
    hide OpenPrefixErrno, Split, ValidateFileName, Create, CreateErrno, NameRule, ParentsOpen, Reachable, Addable;
    var p := Components(name);
    NameRuleExactly(cfg.flags, name);
    NameCodes(name, cfg.flags);
    ParentsOpenExactly(st.fs, p, |p| - 1);
    CreateExactly(st.fs, p);
    CreateCodes(st.fs, p);
  }

  lemma LnkStatus(cfg: Config, st: State, h: FileHeader, name: seq<byte>, input: seq<byte>)
    requires CString(name) && ReceiveLink(cfg, st, h, name, input).Stop?
    ensures var r := ReceiveLink(cfg, st, h, name, input); LnkReason(cfg, st, h, name, input, r.code) && r.reported
  {
    hide OpenPrefixErrno, Split, ValidateSymlink, Create, CreateErrno, LinkRule, ParentsOpen, Reachable, Addable,
         AsCString;
    var p := Components(name);
    if h.filelen <= |input| {
      LinkRuleExactly(cfg.flags, name, AsCString(input[..h.filelen]));
      LinkCodes(name, AsCString(input[..h.filelen]), cfg.flags);
    }
    ParentsOpenExactly(st.fs, p, |p| - 1);
    CreateExactly(st.fs, p);
    CreateCodes(st.fs, p);
  }

  lemma DirStatus(cfg: Config, st: State, h: FileHeader, name: seq<byte>)
    requires CString(name) && ReceiveDir(cfg, st, h, name).Stop?
    ensures var r := ReceiveDir(cfg, st, h, name);
            DirReason(cfg, st, h, name, r.code) && (r.reported <==> r.code != 1)
  {
    hide OpenPrefixErrno, Split, ValidateFileName, Create, CreateErrno, NameRule, ParentsOpen, Reachable, Addable;
    var p := Components(name);
    NameRuleExactly(cfg.flags, name);
    NameCodes(name, cfg.flags);
    ParentsOpenExactly(st.fs, p, |p| - 1);
    CreateExactly(st.fs, p);
    CreateCodes(st.fs, p);
  }

  /** The status a record ends the run with, and its reason: what is named is at fault. */
  lemma StatusHasReason(cfg: Config, st: State, h: FileHeader, input: seq<byte>)
    requires ReceiveRecord(cfg, st, h, input).Stop?
    ensures var code, kind := ReceiveRecord(cfg, st, h, input).code, h.mode / 4096 % 16;
            if h.namelen >= 16384 then code == 36
            else if h.namelen > |input| then code == 31415926
            else
              var name, rest := AsCString(input[..h.namelen]), input[h.namelen..];
              if kind == 8 then RegReason(cfg, st, h, name, rest, code)
              else if kind == 10 && cfg.flags.symlinks then LnkReason(cfg, st, h, name, rest, code)
              else if kind == 4 && cfg.flags.directories then DirReason(cfg, st, h, name, code)
              else code == 22
  {
    hide ReceiveReg, ReceiveLink, ReceiveDir, AsCString, RegReason, LnkReason, DirReason;
    if h.namelen <= MAX_PATH_LENGTH - 1 && h.namelen <= |input| {
      var bytes, rest, kind := input[..h.namelen], input[h.namelen..], h.mode / 4096 % 16;
      var name, named := AsCString(bytes), st.(crc := Crc(st.crc, bytes));
      var code := ReceiveRecord(cfg, st, h, input).code;
      ReasonIgnoresCrc(cfg, st, named, h, name, rest, code);
      if kind == 8 {
        RegStatus(cfg, named, h, name, rest);
      } else if kind == 10 && cfg.flags.symlinks {
        LnkStatus(cfg, named, h, name, rest);
      } else if kind == 4 && cfg.flags.directories {
        DirStatus(cfg, named, h, name);
      }
    }
  }

  lemma ReasonIgnoresCrc(cfg: Config, st: State, st': State, h: FileHeader, name: seq<byte>, input: seq<byte>,
                         code: int)
    requires CString(name) && st'.fs == st.fs && st'.totalBytes == st.totalBytes
    ensures RegReason(cfg, st, h, name, input, code) <==> RegReason(cfg, st', h, name, input, code)
    ensures LnkReason(cfg, st, h, name, input, code) <==> LnkReason(cfg, st', h, name, input, code)
    ensures DirReason(cfg, st, h, name, code) <==> DirReason(cfg, st', h, name, code)
  {
    hide NameRule, LinkRule, ParentsOpen, Reachable, Addable, AsCString;
  }

  // ----- How a run ends -----

  /** The other ways for a run to end, each with its status: a header cut short, the end marker, one record too many.
      After the first two a failed syncfs has the last word. */
  lemma EndHasStatus(cfg: Config, st: State, input: seq<byte>)
    ensures var e := Run(cfg, st, input);
            if |input| < 32 then e.code == (if cfg.syncErrno != 0 then cfg.syncErrno else 121) && e.reported
            else if UnLe(input[0..4]) == 0 then e.code == cfg.syncErrno && e.reported
            else cfg.filesLimit != 0 && (st.totalFiles + 1) % TWO64 > cfg.filesLimit ==> e.code == 122 && e.reported
  {
    hide ReceiveRecord, Crc, BodyLength, UnLe;
  }

  /** A run succeeds only if syncfs did. */
  lemma {:induction false} SuccessIsSynced(cfg: Config, st: State, input: seq<byte>)
    requires Succeeds(Run(cfg, st, input))
    ensures cfg.syncErrno == 0
    decreases |input|
  {
    hide ReceiveRecord, ParseFileHeader, Crc, BodyLength, Run;
    RunTurn(cfg, st, input);
    var h, rest := ParseFileHeader(input), input[HEADER_SIZE..];
    if h.namelen != 0 {
      var r := ReceiveRecord(cfg, Counted(AfterHeader(st, input[..HEADER_SIZE])), h, rest);
      SuccessIsSynced(cfg, r.st, rest[BodyLength(h)..]);
    }
  }

  lemma RecordCrc(cfg: Config, st: State, h: FileHeader, input: seq<byte>)
    requires ReceiveRecord(cfg, st, h, input).Next?
    ensures BodyLength(h) <= |input|
    ensures ReceiveRecord(cfg, st, h, input).st.crc == Crc(st.crc, input[..BodyLength(h)])
  {
    hide OpenPrefixErrno, Split, Crc, ValidateFileName, ValidateSymlink, Create, CreateErrno, AsCString;
    var n := h.namelen;
    var name, rest := input[..n], input[n..];
    if IsReg(h.mode) || IsLnk(h.mode) {
      CrcConcat(st.crc, name, rest[..h.filelen]);
      assert name + rest[..h.filelen] == input[..BodyLength(h)];
    }
  }

  lemma ThreePieces(s: seq<byte>, i: nat, k: nat, n: nat)
    requires i + k + n <= |s|
    ensures s[..i] + (s[i..][..k] + s[i..][k..][..n]) == s[..i + k + n]
  {
    assert s[i..][..k] == s[i..i + k] && s[i..][k..][..n] == s[i + k..i + k + n];
    Glue(s, i, i + k, i + k + n);
    Glue(s, 0, i, i + k + n);
  }

  /** The checksum a successful run reports is that of all it has read. */
  lemma {:induction false} ChecksumOfAllRead(cfg: Config, st: State, input: seq<byte>)
    requires Succeeds(Run(cfg, st, input))
    ensures MarkerEnd(input) <= |input| && Run(cfg, st, input).st.crc == Crc(st.crc, input[..MarkerEnd(input)])
    decreases |input|
  {
    hide ReceiveRecord, ParseFileHeader, Crc, BodyLength, Run;
    RunTurn(cfg, st, input);
    SuccessReads(cfg, st, input);
    var h, rest := ParseFileHeader(input), input[HEADER_SIZE..];
    var head, st1 := input[..HEADER_SIZE], AfterHeader(st, input[..HEADER_SIZE]);
    if h.namelen != 0 {
      var k := BodyLength(h);
      var st2, more := ReceiveRecord(cfg, Counted(st1), h, rest).st, rest[k..];
      RecordCrc(cfg, Counted(st1), h, rest);
      ChecksumOfAllRead(cfg, st2, more);
      var n := MarkerEnd(more);
      assert more == input[HEADER_SIZE + k..];
      CrcConcat(st1.crc, rest[..k], more[..n]);
      CrcConcat(st.crc, head, rest[..k] + more[..n]);
      ThreePieces(input, HEADER_SIZE, k, n);
    }
  }
}
