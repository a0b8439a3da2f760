/** The receiver: what do_unpack_ext makes of a stream of bytes. */
module Unpack {
  import opened Bytes
  import opened Crc32
  import opened Utf8
  import opened Paths
  import opened Wire
  import opened FileSystem

  const MAX_NSEC := 999999999

  /** enum copy_flags */
  datatype CopyFlags = CopyFlags(symlinks: bool, directories: bool, unsafeCharacters: bool,
                                 nonCanonicalSymlinks: bool, unsafeSymlinks: bool)

  /** Limits (0 for none) and flags, and what the environment answers: the size of a directory, and the errno of
      the final syncfs (0 if it succeeds). */
  datatype Config = Config(bytesLimit: uint64, filesLimit: uint64, flags: CopyFlags,
                           dirSize: (Tree, Path) -> nat, syncErrno: nat)

  /** The static variables of unpack.c and the files. `written` and `dirBytes` keep exact accounts: payload bytes
      stored, and directory sizes added to totalBytes. */
  datatype State = State(fs: Tree, totalBytes: uint64, totalFiles: uint64, crc: bv32, written: nat, dirBytes: nat)

  const START: State := State(map[], 0, 0, 0, 0, 0)

  /** A record is done, or the receiver exits: with a status sent to the peer, or (errx) without one. */
  datatype Step = Next(st: State) | Stop(st: State, code: int, reported: bool)

  /** Lines 338-342: non-canonical paths and trailing slashes are never allowed. */
  function NameFlags(flags: CopyFlags): Flags {
    Flags(flags.unsafeCharacters, flags.nonCanonicalSymlinks, flags.unsafeSymlinks, false, false, false)
  }

  predicate GoodTimes(h: FileHeader) {
    h.atimeNsec <= MAX_NSEC && h.mtimeNsec <= MAX_NSEC
  }

  function HeaderTimes(h: FileHeader): Times {
    Times(h.atime, h.atimeNsec, h.mtime, h.mtimeNsec)
  }

  function Components(name: seq<byte>): Path
    requires CString(name)
  {
    Split(Content(name))
  }

  /** The errno of opendir_safe: every component but the last is opened. */
  function OpenParentErrno(fs: Tree, p: Path): int
    requires p != []
  {
    OpenPrefixErrno(fs, p, |p| - 1)
  }

  predicate OverQuota(cfg: Config, st: State, filelen: uint64) {
    || filelen > LLONG_MAX
    || (cfg.bytesLimit != 0 && filelen > cfg.bytesLimit)
    || (cfg.bytesLimit != 0 && st.totalBytes > cfg.bytesLimit - filelen)
  }

  /** copy_file and fix_times_and_perms into the file just created at p. */
  function StoreFile(st: State, h: FileHeader, p: Path, input: seq<byte>): Step {
    var data := input[..Min(h.filelen, |input|)];
    var st' := st.(fs := st.fs[p := File(0, None, data)], totalBytes := U64(st.totalBytes + h.filelen),
                   crc := Crc(st.crc, data), written := st.written + |data|);
    if |data| < h.filelen then Stop(st', LEGAL_EOF, true)
    else if !GoodTimes(h) then Stop(st', 1, false)
    else Next(st'.(fs := st'.fs[p := File(h.mode % 4096, Some(HeaderTimes(h)), data)]))
  }

  /** process_one_file_reg */
  function ReceiveReg(cfg: Config, st: State, h: FileHeader, name: seq<byte>, input: seq<byte>): Step
    requires CString(name)
  {
    var p := Components(name);
    var rc := ValidateFileName(name, NameFlags(cfg.flags));
    if rc != 0 then Stop(st, -rc, true)
    else if OpenParentErrno(st.fs, p) != 0 then Stop(st, OpenParentErrno(st.fs, p), true)
    else if CreateErrno(st.fs, p) != 0 then Stop(st, CreateErrno(st.fs, p), true)
    else
      var st' := st.(fs := Create(st.fs, p, File(0, None, [])));
      if OverQuota(cfg, st, h.filelen) then Stop(st', EDQUOT, true) else StoreFile(st', h, p, input)
  }

  /** Making the link, once its target has been read. symlinkat refuses an empty target. */
  function MakeLink(cfg: Config, st: State, name: seq<byte>, target: seq<byte>): Step
    requires CString(name) && CString(target)
  {
    var p := Components(name);
    var rc := ValidateSymlink(name, target, NameFlags(cfg.flags));
    if rc != 0 then Stop(st, -rc, true)
    else if OpenParentErrno(st.fs, p) != 0 then Stop(st, OpenParentErrno(st.fs, p), true)
    else if Content(target) == [] then Stop(st, ENOENT, true)
    else if CreateErrno(st.fs, p) != 0 then Stop(st, CreateErrno(st.fs, p), true)
    else Next(st.(fs := Create(st.fs, p, Link(Content(target))), written := st.written + |Content(target)|))
  }

  /** process_one_file_link */
  function ReceiveLink(cfg: Config, st: State, h: FileHeader, name: seq<byte>, input: seq<byte>): Step
    requires CString(name)
  {
    if h.filelen > MAX_PATH_LENGTH - 1 then Stop(st, ENAMETOOLONG, true)
    else
      var st' := st.(totalBytes := U64(st.totalBytes + h.filelen));
      if cfg.bytesLimit != 0 && st'.totalBytes > cfg.bytesLimit then Stop(st', EDQUOT, true)
      else if |input| < h.filelen then Stop(st', LEGAL_EOF, true)
      else MakeLink(cfg, st'.(crc := Crc(st'.crc, input[..h.filelen])), name, AsCString(input[..h.filelen]))
  }

  /** The second visit to a directory: its size is counted, and it gets its final mode and times. */
  function FinishDir(cfg: Config, st: State, h: FileHeader, p: Path): Step {
    if p !in st.fs || !st.fs[p].Dir? then Stop(st, ENOTDIR, true)
    else if !Readable(st.fs[p].mode) then Stop(st, EACCES, true)
    else
      var size := cfg.dirSize(st.fs, p);
      var st' := st.(totalBytes := U64(st.totalBytes + size), dirBytes := st.dirBytes + size);
      if !GoodTimes(h) then Stop(st', 1, false)
      else Next(st'.(fs := st'.fs[p := Dir(h.mode % 4096, Some(HeaderTimes(h)))]))
  }

  /** process_one_file_dir. An invalid name exits with the negative code itself (line 264). */
  function ReceiveDir(cfg: Config, st: State, h: FileHeader, name: seq<byte>): Step
    requires CString(name)
  {
    var p := Components(name);
    var rc := ValidateFileName(name, NameFlags(cfg.flags));
    if rc != 0 then Stop(st, rc, true)
    else if OpenParentErrno(st.fs, p) != 0 then Stop(st, OpenParentErrno(st.fs, p), true)
    else if CreateErrno(st.fs, p) == 0 then Next(st.(fs := Create(st.fs, p, Dir(MODE_RWX, None))))
    else if CreateErrno(st.fs, p) != EEXIST then Stop(st, CreateErrno(st.fs, p), true)
    else FinishDir(cfg, st, h, p)
  }

  /** The dispatch of process_one_file on the mode, with the name read. */
  function ReceiveKind(cfg: Config, st: State, h: FileHeader, name: seq<byte>, input: seq<byte>): Step
    requires CString(name)
  {
    if IsReg(h.mode) then ReceiveReg(cfg, st, h, name, input)
    else if IsLnk(h.mode) && cfg.flags.symlinks then ReceiveLink(cfg, st, h, name, input)
    else if IsDir(h.mode) && cfg.flags.directories then ReceiveDir(cfg, st, h, name)
    else Stop(st, EINVAL, true)
  }

  /** process_one_file */
  function ReceiveRecord(cfg: Config, st: State, h: FileHeader, input: seq<byte>): (r: Step)
    ensures r.Next? ==> BodyLength(h) <= |input|
  {
    if h.namelen > MAX_PATH_LENGTH - 1 then Stop(st, ENAMETOOLONG, true)
    else if |input| < h.namelen then Stop(st, LEGAL_EOF, true)
    else
      var name := input[..h.namelen];
      ReceiveKind(cfg, st.(crc := Crc(st.crc, name)), h, AsCString(name), input[h.namelen..])
  }

  /** How a run ends: the state, the status, whether it was sent, and the unread bytes. */
  datatype End = End(st: State, code: int, reported: bool, rest: seq<byte>)

  /** Lines 386-392: syncfs may replace the status. */
  function FinalStatus(cfg: Config, code: int): int {
    if cfg.syncErrno == 0 then code else cfg.syncErrno
  }

  /** A header is read and counted; END_MARKER is recognised by its empty name. */
  function AfterHeader(st: State, b: seq<byte>): State {
    st.(crc := Crc(st.crc, b))
  }

  function Counted(st: State): State {
    st.(totalFiles := U64(st.totalFiles + 1))
  }

  /** The receive loop of do_unpack_ext. */
  function Run(cfg: Config, st: State, input: seq<byte>): End
    decreases |input|
  {
    if |input| < HEADER_SIZE then End(st, FinalStatus(cfg, EREMOTEIO), true, [])
    else
      var h := ParseFileHeader(input);
      var st' := AfterHeader(st, input[..HEADER_SIZE]);
      var rest := input[HEADER_SIZE..];
      if h.namelen == 0 then End(st', FinalStatus(cfg, 0), true, rest)
      else if cfg.filesLimit != 0 && Counted(st').totalFiles > cfg.filesLimit then End(Counted(st'), EDQUOT, true, [])
      else
        match ReceiveRecord(cfg, Counted(st'), h, rest)
        case Stop(st'', code, reported) => End(st'', code, reported, [])
        case Next(st'') => Run(cfg, st'', rest[BodyLength(h)..])
  }

  /** do_unpack_ext into an empty directory. */
  function UnpackStream(cfg: Config, input: seq<byte>): End {
    Run(cfg, START, input)
  }

  /** The receiver reported success: status 0. */
  predicate Succeeds(e: End) {
    e.reported && e.code == 0
  }

  // ----- Success and truncation -----

  lemma {:induction false} OpenPrefixErrnoNonNegative(fs: Tree, p: Path, k: nat)
    requires k <= |p|
    ensures OpenPrefixErrno(fs, p, k) >= 0
  {
    if k > 0 {
      OpenPrefixErrnoNonNegative(fs, p, k - 1);
    }
  }

  /** Every exit of a record handler has a status other than 0. */
  lemma StopIsFailure(cfg: Config, st: State, h: FileHeader, input: seq<byte>)
    ensures ReceiveRecord(cfg, st, h, input).Stop? ==> ReceiveRecord(cfg, st, h, input).code != 0
  {
    hide OpenPrefixErrno, Split, AsCString, Crc, BodyLength;
  }

  /** A directory is to be made under a name that the validator refuses. */
  predicate RefusedDirectory(cfg: Config, h: FileHeader, input: seq<byte>) {
    && h.namelen <= MAX_PATH_LENGTH - 1 && h.namelen <= |input|
    && IsDir(h.mode) && cfg.flags.directories
    && ValidateFileName(AsCString(input[..h.namelen]), NameFlags(cfg.flags)) != 0
  }

  /** Exactly then is the exit status negative: all other handlers negate the validator's result. */
  lemma NegativeExitExactly(cfg: Config, st: State, h: FileHeader, input: seq<byte>)
    ensures var r := ReceiveRecord(cfg, st, h, input);
            (r.Stop? && r.code < 0) <==> RefusedDirectory(cfg, h, input)
  {
    hide OpenPrefixErrno, Split, AsCString, Crc, BodyLength, ScanPath;
    if h.namelen <= MAX_PATH_LENGTH - 1 && h.namelen <= |input| {
      var name := AsCString(input[..h.namelen]);
      var p := Components(name);
      OpenPrefixErrnoNonNegative(st.fs, p, |p| - 1);
    }
  }

  /** An instance: a stream that asks for the directory "/" ends with the status -EILSEQ. */
  lemma RefusedDirectoryExits(cfg: Config)
    requires cfg.flags.directories && cfg.filesLimit == 0
    ensures var name := [SLASH, 0]; var h := FileHeader(2, 0x4000, 0, 0, 0, 0, 0);
            UnpackStream(cfg, EncodeFileHeader(h) + name).code == -EILSEQ
  {
    hide EncodeFileHeader, ParseFileHeader, Crc, Create, FinishDir;
    var h, name := FileHeader(2, 0x4000, 0, 0, 0, 0, 0), [SLASH, 0];
    var s := EncodeFileHeader(h) + name;
    ParseEncodeFileHeader(h, name);
    assert s[HEADER_SIZE..] == name && name[..2] == name;
    AsCStringOf([SLASH], [0]);
    assert AsCString(name) == name;
    assert ScanPath(name, 0, NameFlags(cfg.flags)) == -ENOLINK;
  }

  /** A record is judged by its own bytes alone. */
  lemma RecordIsLocal(cfg: Config, st: State, h: FileHeader, input: seq<byte>, more: seq<byte>)
    requires ReceiveRecord(cfg, st, h, input).Next?
    requires BodyLength(h) <= |more| && more[..BodyLength(h)] == input[..BodyLength(h)]
    ensures ReceiveRecord(cfg, st, h, more) == ReceiveRecord(cfg, st, h, input)
  {
    hide OpenPrefixErrno, Split, AsCString, Crc, ValidateFileName, ValidateSymlink;
    var n := h.namelen;
    assert more[..n] == more[..BodyLength(h)][..n] == input[..n];
    if IsReg(h.mode) || IsLnk(h.mode) {
      assert more[n..][..h.filelen] == more[..BodyLength(h)][n..];
      assert input[n..][..h.filelen] == input[..BodyLength(h)][n..];
    }
  }

  /** Bytes read by a successful run. */
  function Consumed(cfg: Config, st: State, input: seq<byte>): int {
    |input| - |Run(cfg, st, input).rest|
  }

  lemma HeaderPrefix(s: seq<byte>, t: seq<byte>)
    requires |s| >= HEADER_SIZE && |t| >= HEADER_SIZE && t[..HEADER_SIZE] == s[..HEADER_SIZE]
    ensures ParseFileHeader(t) == ParseFileHeader(s)
  {
    SliceOfSlice(s, 0, 32, 0, 4); SliceOfSlice(t, 0, 32, 0, 4);
    SliceOfSlice(s, 0, 32, 4, 8); SliceOfSlice(t, 0, 32, 4, 8);
    SliceOfSlice(s, 0, 32, 8, 16); SliceOfSlice(t, 0, 32, 8, 16);
    SliceOfSlice(s, 0, 32, 16, 20); SliceOfSlice(t, 0, 32, 16, 20);
    SliceOfSlice(s, 0, 32, 20, 24); SliceOfSlice(t, 0, 32, 20, 24);
    SliceOfSlice(s, 0, 32, 24, 28); SliceOfSlice(t, 0, 32, 24, 28);
    SliceOfSlice(s, 0, 32, 28, 32); SliceOfSlice(t, 0, 32, 28, 32);
  }

  /** One turn of the loop that goes on. */
  lemma RunTurn(cfg: Config, st: State, input: seq<byte>)
    requires Succeeds(Run(cfg, st, input))
    ensures |input| >= HEADER_SIZE
    ensures var h, st1, rest := ParseFileHeader(input), AfterHeader(st, input[..HEADER_SIZE]), input[HEADER_SIZE..];
            if h.namelen == 0 then Run(cfg, st, input) == End(st1, FinalStatus(cfg, 0), true, rest)
            else
              && !(cfg.filesLimit != 0 && Counted(st1).totalFiles > cfg.filesLimit)
              && ReceiveRecord(cfg, Counted(st1), h, rest).Next?
              && BodyLength(h) <= |rest|
              && Run(cfg, st, input)
                 == Run(cfg, ReceiveRecord(cfg, Counted(st1), h, rest).st, rest[BodyLength(h)..])
  {
    hide ReceiveRecord, ParseFileHeader, Crc;
    if |input| >= HEADER_SIZE {
      var h, rest := ParseFileHeader(input), input[HEADER_SIZE..];
      StopIsFailure(cfg, Counted(AfterHeader(st, input[..HEADER_SIZE])), h, rest);
    }
  }

  /** What a successful run has read decides it: any other stream that starts the same way ends the same way. */
  lemma {:induction false} SuccessIsLocal(cfg: Config, st: State, s: seq<byte>, t: seq<byte>)
    requires Succeeds(Run(cfg, st, s))
    requires var n := Consumed(cfg, st, s); 0 <= n <= |s| && n <= |t| && t[..n] == s[..n]
    ensures Run(cfg, st, t) == Run(cfg, st, s).(rest := t[Consumed(cfg, st, s)..])
    decreases |s|
  {
    hide ReceiveRecord, ParseFileHeader, Crc, BodyLength, Run;
    RunTurn(cfg, st, s);
    var n := Consumed(cfg, st, s);
    var h, st1, rest := ParseFileHeader(s), AfterHeader(st, s[..HEADER_SIZE]), s[HEADER_SIZE..];
    if h.namelen == 0 {
      assert n == HEADER_SIZE;
      HeaderPrefix(s, t);
      RunAtMarker(cfg, st, t);
    } else {
      var k := BodyLength(h);
      var st2 := ReceiveRecord(cfg, Counted(st1), h, rest).st;
      SuccessReads(cfg, st2, rest[k..]);
      var more := t[HEADER_SIZE..];
      assert n == HEADER_SIZE + k + Consumed(cfg, st2, rest[k..]);
      PrefixParts(s, t, n, HEADER_SIZE, k);
      HeaderPrefix(s, t);
      RecordIsLocal(cfg, Counted(st1), h, rest, more);
      RunAtRecord(cfg, st, t);
      SuccessIsLocal(cfg, st2, rest[k..], more[k..]);
      assert more[k..][n - HEADER_SIZE - k..] == t[n..];
    }
  }

  lemma PrefixParts(s: seq<byte>, t: seq<byte>, n: nat, a: nat, k: nat)
    requires a + k <= n <= |s| && n <= |t| && t[..n] == s[..n]
    ensures t[..a] == s[..a] && t[a..][..k] == s[a..][..k]
    ensures t[a..][k..][..n - a - k] == s[a..][k..][..n - a - k]
  {
    assert t[..a] == t[..n][..a] && s[..a] == s[..n][..a];
    assert t[a..][..k] == t[..n][a..a + k] && s[a..][..k] == s[..n][a..a + k];
    assert t[a..][k..][..n - a - k] == t[..n][a + k..] && s[a..][k..][..n - a - k] == s[..n][a + k..];
  }

  lemma RunAtMarker(cfg: Config, st: State, t: seq<byte>)
    requires |t| >= HEADER_SIZE && ParseFileHeader(t).namelen == 0
    ensures Run(cfg, st, t) == End(AfterHeader(st, t[..HEADER_SIZE]), FinalStatus(cfg, 0), true, t[HEADER_SIZE..])
  {
    hide ParseFileHeader, Crc;
  }

  lemma RunAtRecord(cfg: Config, st: State, t: seq<byte>)
    requires |t| >= HEADER_SIZE && ParseFileHeader(t).namelen != 0
    requires var st1 := Counted(AfterHeader(st, t[..HEADER_SIZE]));
             && !(cfg.filesLimit != 0 && st1.totalFiles > cfg.filesLimit)
             && ReceiveRecord(cfg, st1, ParseFileHeader(t), t[HEADER_SIZE..]).Next?
    ensures var h, st1, rest := ParseFileHeader(t), Counted(AfterHeader(st, t[..HEADER_SIZE])), t[HEADER_SIZE..];
            && BodyLength(h) <= |rest|
            && Run(cfg, st, t) == Run(cfg, ReceiveRecord(cfg, st1, h, rest).st, rest[BodyLength(h)..])
  {
    hide ParseFileHeader, Crc, ReceiveRecord;
  }

  /** A successful run has read up to the end of the marker, and not further. */
  lemma {:induction false} SuccessReads(cfg: Config, st: State, s: seq<byte>)
    requires Succeeds(Run(cfg, st, s))
    ensures HEADER_SIZE <= MarkerEnd(s) == Consumed(cfg, st, s) <= |s| && Run(cfg, st, s).rest == s[MarkerEnd(s)..]
    decreases |s|
  {
    hide ReceiveRecord, ParseFileHeader, Crc, BodyLength, Run;
    RunTurn(cfg, st, s);
    var h, rest := ParseFileHeader(s), s[HEADER_SIZE..];
    if h.namelen != 0 {
      var st2 := ReceiveRecord(cfg, Counted(AfterHeader(st, s[..HEADER_SIZE])), h, rest).st;
      assert rest[BodyLength(h)..] == s[HEADER_SIZE + BodyLength(h)..];
      SuccessReads(cfg, st2, rest[BodyLength(h)..]);
    }
  }

  /** A marker that is found stays where it is when more bytes follow. */
  lemma {:induction false} MarkerEndOfPrefix(s: seq<byte>, m: nat)
    requires m <= |s| && MarkerEnd(s[..m]) <= m
    ensures MarkerEnd(s) == MarkerEnd(s[..m])
    decreases |s|
  {
    hide ParseFileHeader, BodyLength;
    var t := s[..m];
    assert t[..HEADER_SIZE] == s[..HEADER_SIZE];
    HeaderPrefix(s, t);
    var next := HEADER_SIZE + BodyLength(ParseFileHeader(s));
    if ParseFileHeader(s).namelen != 0 {
      assert t[next..] == s[next..][..m - next];
      MarkerEndOfPrefix(s[next..], m - next);
    }
  }

  /** A stream cut anywhere before the end of its marker, or without one, is never reported as a success. */
  lemma TruncationFails(cfg: Config, st: State, s: seq<byte>, m: nat)
    requires m <= |s| && m < MarkerEnd(s)
    ensures !Succeeds(Run(cfg, st, s[..m]))
  {
    hide Run, MarkerEnd;
    if Succeeds(Run(cfg, st, s[..m])) {
      SuccessReads(cfg, st, s[..m]);
      MarkerEndOfPrefix(s, m);
    }
  }

  /** Exactly the prefixes that reach the end of the marker succeed; so no proper prefix does if and only if
      nothing follows the marker. */
  lemma PrefixSucceedsIffMarkerRead(cfg: Config, s: seq<byte>, m: nat)
    requires Succeeds(UnpackStream(cfg, s)) && m <= |s|
    ensures Succeeds(UnpackStream(cfg, s[..m])) <==> m >= MarkerEnd(s)
  {
    hide Run, MarkerEnd;
    SuccessReads(cfg, START, s);
    var n := MarkerEnd(s);
    if m < n {
      TruncationFails(cfg, START, s, m);
    } else {
      assert s[..m][..n] == s[..n];
      SuccessIsLocal(cfg, START, s, s[..m]);
    }
  }

  /** A byte after the marker is ignored, so there a proper prefix does succeed. */
  lemma TrailingByteIsIgnored(cfg: Config, b: byte)
    requires cfg.syncErrno == 0
    ensures var s := EncodeFileHeader(END_MARKER);
            Succeeds(UnpackStream(cfg, s + [b])) && Succeeds(UnpackStream(cfg, s)) && s == (s + [b])[..HEADER_SIZE]
  {
    hide EncodeFileHeader, ParseFileHeader, Run;
    var s := EncodeFileHeader(END_MARKER);
    ParseEncodeFileHeader(END_MARKER, [b]);
    ParseEncodeFileHeader(END_MARKER, []);
    assert s + [] == s;
    RunAtMarker(cfg, START, s + [b]);
    RunAtMarker(cfg, START, s);
  }
}
