/** Symbolic links made by a transfer never lead out of the top-level entry they were sent in. */
module Confinement {
  import opened Bytes
  import opened Crc32
  import opened Utf8
  import opened Paths
  import opened Wire
  import opened FileSystem
  import opened Unpack

  // ----- What the receiver stores -----

  /** A relative target with at most `budget` leading ".." and none elsewhere. */
  predicate TargetFits(target: seq<byte>, budget: int) {
    && target != [] && target[0] != SLASH
    && DotDots(Paths.Split(target)) <= budget && DotDotsLead(Paths.Split(target))
  }

  /** Links lie below the top level, and their targets go up at most to the top-level entry. */
  ghost predicate Confined(fs: Tree) {
    forall p :: p in fs && fs[p].Link? ==> |p| >= 2 && TargetFits(fs[p].target, |p| - 2)
  }

  /** An accepted link has the depth its components say and a fitting target. */
  lemma AcceptedLinkFits(name: seq<byte>, target: seq<byte>, flags: CopyFlags)
    requires CString(name) && CString(target) && !flags.unsafeSymlinks && Content(target) != []
    requires ValidateSymlink(name, target, NameFlags(flags)) == 0
    ensures |Components(name)| >= 2 && TargetFits(Content(target), |Components(name)| - 2)
  {
    hide ScanPath, Paths.Split, DotDotsLead, Canonical, Display.SafeFrom;
    StrictNameComponents(name, NameFlags(flags));
    SymlinkMeaning(name, target, NameFlags(flags));
    AllNormalCount(Components(name));
  }

  /** Creating or replacing anything but a link, and creating a fitting link, keeps the tree confined. */
  lemma CreateKeepsConfined(fs: Tree, p: Path, node: Node)
    requires Confined(fs) && p != []
    requires node.Link? ==> |p| >= 2 && TargetFits(node.target, |p| - 2)
    ensures Confined(Create(fs, p, node)) && Confined(fs[p := node])
  {
    hide TargetFits;
  }

  lemma RecordKeepsConfined(cfg: Config, st: State, h: FileHeader, input: seq<byte>)
    requires !cfg.flags.unsafeSymlinks && Confined(st.fs)
    ensures Confined(ReceiveRecord(cfg, st, h, input).st.fs)
  {
    hide OpenPrefixErrno, Paths.Split, Crc, ValidateFileName, ValidateSymlink, Create, CreateErrno, BodyLength,
         AsCString, Confined, TargetFits;
    if h.namelen <= MAX_PATH_LENGTH - 1 && h.namelen <= |input| {
      var name, rest := AsCString(input[..h.namelen]), input[h.namelen..];
      var p := Components(name);
      if IsReg(h.mode) {
        CreateKeepsConfined(st.fs, p, File(0, None, []));
        var data := rest[..Min(h.filelen, |rest|)];
        if Confined(Create(st.fs, p, File(0, None, []))) {
          var fs' := Create(st.fs, p, File(0, None, []));
          CreateKeepsConfined(fs', p, File(0, None, data));
          CreateKeepsConfined(fs'[p := File(0, None, data)], p, File(h.mode % 4096, Some(HeaderTimes(h)), data));
        }
      } else if IsLnk(h.mode) && h.filelen <= |rest| {
        var target := AsCString(rest[..h.filelen]);
        if ValidateSymlink(name, target, NameFlags(cfg.flags)) == 0 && Content(target) != [] {
          AcceptedLinkFits(name, target, cfg.flags);
          CreateKeepsConfined(st.fs, p, Link(Content(target)));
        }
      } else if IsDir(h.mode) {
        CreateKeepsConfined(st.fs, p, Dir(MODE_RWX, None));
        CreateKeepsConfined(st.fs, p, Dir(h.mode % 4096, Some(HeaderTimes(h))));
      }
    }
  }

  /** Any run into a confined tree leaves it confined, however it ends. */
  lemma {:induction false} RunKeepsConfined(cfg: Config, st: State, input: seq<byte>)
    requires !cfg.flags.unsafeSymlinks && Confined(st.fs)
    ensures Confined(Run(cfg, st, input).st.fs)
    decreases |input|
  {
    hide ReceiveRecord, ParseFileHeader, Crc, BodyLength, Confined;
    if |input| >= HEADER_SIZE {
      var h, st1, rest := ParseFileHeader(input), Counted(AfterHeader(st, input[..HEADER_SIZE])), input[HEADER_SIZE..];
      RecordKeepsConfined(cfg, st1, h, rest);
      var r := ReceiveRecord(cfg, st1, h, rest);
      if r.Next? {
        RunKeepsConfined(cfg, r.st, rest[BodyLength(h)..]);
      }
    }
  }

  // ----- Following links -----

  /** A path walk in progress: the directory reached, or Outside once it has left the incoming directory, and the
      components still to be walked. */
  datatype Place = Inside(path: Path) | Outside
  datatype Walk = Walk(at: Place, pending: seq<Name>)

  /** One step of path resolution; links are followed. */
  function FollowStep(fs: Tree, w: Walk): Walk {
    if w.pending == [] || w.at.Outside? then w
    else
      var c, rest, cur := w.pending[0], w.pending[1..], w.at.path;
      if c == [] || IsDot(c) then Walk(w.at, rest)
      else if IsDotDot(c) then Walk(if cur == [] then Outside else Inside(cur[..|cur| - 1]), rest)
      else if cur + [c] in fs && fs[cur + [c]].Link? then
        var target := fs[cur + [c]].target;
        if target != [] && target[0] == SLASH then Walk(Outside, rest) else Walk(w.at, Paths.Split(target) + rest)
      else Walk(Inside(cur + [c]), rest)
  }

  function Follow(fs: Tree, w: Walk, n: nat): Walk
    decreases n
  {
    if n == 0 then w else Follow(fs, FollowStep(fs, w), n - 1)
  }

  /** Inside the entry `top`, with fewer leading ".." pending than there are levels below the root. */
  ghost predicate Safe(top: Name, w: Walk) {
    && w.at.Inside? && w.at.path != [] && w.at.path[0] == top
    && DotDots(w.pending) <= |w.at.path| - 1 && DotDotsLead(w.pending)
  }

  lemma {:induction false} DotDotsConcat(a: seq<Name>, b: seq<Name>)
    ensures DotDots(a + b) == DotDots(a) + DotDots(b)
  {
    if a == [] {
      assert a + b == b;
    } else {
      assert (a + b)[1..] == a[1..] + b;
      DotDotsConcat(a[1..], b);
    }
  }

  lemma LeadTail(cs: seq<Name>)
    requires cs != [] && DotDotsLead(cs)
    ensures DotDotsLead(cs[1..])
    ensures IsNormal(cs[0]) ==> DotDots(cs[1..]) == 0
  {
    var rest := cs[1..];
    assert forall j :: 0 <= j < |rest| ==> rest[j] == cs[j + 1];
    NoDotDots(rest);
  }

  /** Link components go in front of components without "..". */
  lemma LeadConcat(a: seq<Name>, b: seq<Name>)
    requires DotDotsLead(a) && DotDots(b) == 0
    ensures DotDotsLead(a + b) && DotDots(a + b) == DotDots(a)
  {
    DotDotsConcat(a, b);
    NoDotDots(b);
    forall i, j | 0 <= i < j < |a + b| && IsNormal((a + b)[i]) ensures !IsDotDot((a + b)[j]) {
      if j >= |a| {
        assert (a + b)[j] == b[j - |a|];
      }
    }
  }

  /** A step of a safe walk is safe. */
  lemma StepStaysSafe(fs: Tree, top: Name, w: Walk)
    requires Confined(fs) && Safe(top, w)
    ensures Safe(top, FollowStep(fs, w))
  {
    hide Paths.Split, DotDotsLead;
    if w.pending != [] {
      LeadTail(w.pending);
      var c, rest, cur := w.pending[0], w.pending[1..], w.at.path;
      var q := cur + [c];
      if IsNormal(c) && q in fs && fs[q].Link? {
        assert TargetFits(fs[q].target, |q| - 2);
        LeadConcat(Paths.Split(fs[q].target), rest);
      }
    }
  }

  lemma {:induction false} FollowStaysSafe(fs: Tree, top: Name, w: Walk, n: nat)
    requires Confined(fs) && Safe(top, w)
    ensures Safe(top, Follow(fs, w, n))
    decreases n
  {
    hide Safe, FollowStep;
    if n > 0 {
      StepStaysSafe(fs, top, w);
      FollowStaysSafe(fs, top, FollowStep(fs, w), n - 1);
    }
  }

  /** Whatever a transfer sends, and however it ends: resolving any name the receiver accepts, through any number
      of links, never leaves the top-level entry that the name starts with. */
  lemma LinksNeverEscape(cfg: Config, input: seq<byte>, name: seq<byte>, n: nat)
    requires !cfg.flags.unsafeSymlinks && CString(name)
    requires ValidateFileName(name, NameFlags(cfg.flags)) == 0
    ensures var p := Components(name);
            var w := Follow(UnpackStream(cfg, input).st.fs, Walk(Inside([]), p), n);
            w.at.Inside? && (n == 0 || (w.at.path != [] && w.at.path[0] == p[0]))
  {
    hide Run, Paths.Split, ScanPath, FollowStep;
    var fs, p := UnpackStream(cfg, input).st.fs, Components(name);
    assert Confined(START.fs);
    RunKeepsConfined(cfg, START, input);
    StrictNameComponents(name, NameFlags(cfg.flags));
    if n > 0 {
      var w := FollowStep(fs, Walk(Inside([]), p));
      FirstStep(fs, p);
      FollowStaysSafe(fs, p[0], w, n - 1);
    }
  }

  lemma FirstStep(fs: Tree, p: Path)
    requires Confined(fs) && p != [] && forall j :: 0 <= j < |p| ==> IsNormal(p[j])
    ensures Safe(p[0], FollowStep(fs, Walk(Inside([]), p)))
  {
    var rest := p[1..];
    NoDotDots(p);
    NoDotDots(rest);
    assert [] + [p[0]] == [p[0]];
    assert !([p[0]] in fs && fs[[p[0]]].Link?);
  }
}
