/** What the limits guarantee at every moment of every run. */
module Quota {
  import opened Bytes
  import opened Crc32
  import opened Utf8
  import opened Paths
  import opened Wire
  import opened FileSystem
  import opened Unpack

  /** The states after each record that is processed, in order; the last one may have ended the run. */
  function Turns(cfg: Config, st: State, input: seq<byte>): seq<State>
    decreases |input|
  {
    if |input| < HEADER_SIZE then []
    else
      var h, st1, rest := ParseFileHeader(input), Counted(AfterHeader(st, input[..HEADER_SIZE])), input[HEADER_SIZE..];
      if h.namelen == 0 || (cfg.filesLimit != 0 && st1.totalFiles > cfg.filesLimit) then []
      else
        match ReceiveRecord(cfg, st1, h, rest)
        case Stop(st', _, _) => [st']
        case Next(st') => [st'] + Turns(cfg, st', rest[BodyLength(h)..])
  }

  /** The run ends with the files as the last record left them. */
  lemma {:induction false} TurnsLeadToEnd(cfg: Config, st: State, input: seq<byte>)
    ensures var turns := Turns(cfg, st, input);
            Run(cfg, st, input).st.fs == (if turns == [] then st.fs else turns[|turns| - 1].fs)
    decreases |input|
  {
    hide ReceiveRecord, ParseFileHeader, Crc, BodyLength;
    if |input| >= HEADER_SIZE {
      var h, st1, rest := ParseFileHeader(input), Counted(AfterHeader(st, input[..HEADER_SIZE])), input[HEADER_SIZE..];
      var r := ReceiveRecord(cfg, st1, h, rest);
      if r.Next? {
        TurnsLeadToEnd(cfg, r.st, rest[BodyLength(h)..]);
      }
    }
  }

  // ----- Bytes in the tree -----

  function NodeBytes(node: Node): nat {
    match node
    case File(_, _, data) => |data|
    case Dir(_, _) => 0
    case Link(target) => |target|
  }

  /** File contents and link targets, summed over the tree. */
  ghost function TreeBytes(fs: Tree): nat
    decreases |fs|
  {
    if fs == map[] then 0
    else
      var p :| p in fs;
      NodeBytes(fs[p]) + TreeBytes(fs - {p})
  }

  /** Any node may be counted first. */
  lemma {:induction false} TreeBytesWithout(fs: Tree, p: Path)
    requires p in fs
    ensures TreeBytes(fs) == NodeBytes(fs[p]) + TreeBytes(fs - {p})
    decreases |fs|
  {
    hide NodeBytes;
    var q :| q in fs && TreeBytes(fs) == NodeBytes(fs[q]) + TreeBytes(fs - {q});
    if q != p {
      TreeBytesWithout(fs - {q}, p);
      TreeBytesWithout(fs - {p}, q);
      assert fs - {q} - {p} == fs - {p} - {q};
    }
  }

  /** Putting a node where another one was, or where none was. */
  lemma TreeBytesUpdate(fs: Tree, p: Path, node: Node)
    ensures TreeBytes(fs[p := node]) + (if p in fs then NodeBytes(fs[p]) else 0) == TreeBytes(fs) + NodeBytes(node)
  {
    hide NodeBytes, TreeBytes;
    TreeBytesWithout(fs[p := node], p);
    if p in fs {
      TreeBytesWithout(fs, p);
      assert fs[p := node] - {p} == fs - {p};
    } else {
      assert fs[p := node] - {p} == fs;
    }
  }

  lemma TreeBytesCreate(fs: Tree, p: Path, node: Node)
    requires p != [] && p !in fs
    ensures TreeBytes(Create(fs, p, node)) == TreeBytes(fs) + NodeBytes(node)
  {
    hide TreeBytes;
    var dir := Parent(p);
    if dir in fs && fs[dir].Dir? {
      TreeBytesUpdate(fs, dir, Dir(fs[dir].mode, None));
    }
    TreeBytesUpdate(Touch(fs, dir), p, node);
  }

  /** The account of payload bytes is what the tree holds. */
  ghost predicate Faithful(st: State) {
    st.written == TreeBytes(st.fs)
  }

  lemma StoreKeepsFaithful(st: State, h: FileHeader, p: Path, input: seq<byte>)
    requires Faithful(st) && p in st.fs && NodeBytes(st.fs[p]) == 0
    ensures Faithful(StoreFile(st, h, p, input).st)
  {
    hide TreeBytes, Crc;
    var data := input[..Min(h.filelen, |input|)];
    TreeBytesUpdate(st.fs, p, File(0, None, data));
    TreeBytesUpdate(st.fs[p := File(0, None, data)], p, File(h.mode % 4096, Some(HeaderTimes(h)), data));
  }

  lemma RecordKeepsFaithful(cfg: Config, st: State, h: FileHeader, input: seq<byte>)
    requires Faithful(st)
    ensures Faithful(ReceiveRecord(cfg, st, h, input).st)
  {
    hide TreeBytes, OpenPrefixErrno, Paths.Split, Crc, ValidateFileName, ValidateSymlink, Create, StoreFile, BodyLength,
         AsCString;
    if h.namelen <= MAX_PATH_LENGTH - 1 && h.namelen <= |input| {
      var name, rest := AsCString(input[..h.namelen]), input[h.namelen..];
      var p := Components(name);
      var named := st.(crc := Crc(st.crc, input[..h.namelen]));
      if IsReg(h.mode) {
        RegKeepsFaithful(cfg, named, h, name, rest);
      } else if IsLnk(h.mode) && h.filelen <= |rest| && p !in st.fs {
        TreeBytesCreate(st.fs, p, Link(Content(AsCString(rest[..h.filelen]))));
      } else if IsDir(h.mode) {
        DirKeepsFaithful(cfg, named, h, name);
      }
    }
  }

  lemma RegKeepsFaithful(cfg: Config, st: State, h: FileHeader, name: seq<byte>, input: seq<byte>)
    requires CString(name) && Faithful(st)
    ensures Faithful(ReceiveReg(cfg, st, h, name, input).st)
  {
    hide TreeBytes, OpenPrefixErrno, Paths.Split, ValidateFileName, StoreFile;
    var p := Components(name);
    if p !in st.fs {
      var fs := Create(st.fs, p, File(0, None, []));
      TreeBytesCreate(st.fs, p, File(0, None, []));
      StoreKeepsFaithful(st.(fs := fs), h, p, input);
    }
  }

  lemma DirKeepsFaithful(cfg: Config, st: State, h: FileHeader, name: seq<byte>)
    requires CString(name) && Faithful(st)
    ensures Faithful(ReceiveDir(cfg, st, h, name).st)
  {
    hide TreeBytes, OpenPrefixErrno, Paths.Split, ValidateFileName, Create;
    var p := Components(name);
    if p !in st.fs {
      TreeBytesCreate(st.fs, p, Dir(MODE_RWX, None));
    } else {
      TreeBytesUpdate(st.fs, p, Dir(h.mode % 4096, Some(HeaderTimes(h))));
    }
  }

  // ----- The limit on bytes -----

  /** totalBytes covers what was written and the directories; apart from the directories it stays within the limit and
      within the bytes received so far. */
  predicate Accounted(cfg: Config, st: State, received: nat) {
    && st.written + st.dirBytes <= st.totalBytes
    && st.totalBytes <= st.dirBytes + Min(cfg.bytesLimit, received)
  }

  /** Directory sizes, which are added unchecked, have not brought the 64-bit counter near its end, for a stream of
      `total` bytes. */
  predicate NoOverflow(cfg: Config, st: State, total: nat) {
    Min(cfg.bytesLimit, total) + st.dirBytes + MAX_PATH_LENGTH <= TWO64
  }

  /** What one record may do to the account, given the bytes of its payload. */
  ghost predicate StepKeepsAccount(cfg: Config, st: State, r: Step, received: nat) {
    && st.dirBytes <= r.st.dirBytes
    && r.st.written <= cfg.bytesLimit
    && (r.Next? ==> Accounted(cfg, r.st, received))
  }

  lemma RegKeepsAccount(cfg: Config, st: State, h: FileHeader, name: seq<byte>, input: seq<byte>, received: nat)
    requires CString(name) && cfg.bytesLimit != 0 && Accounted(cfg, st, received)
    ensures StepKeepsAccount(cfg, st, ReceiveReg(cfg, st, h, name, input), received + h.filelen)
  {
    hide OpenPrefixErrno, Paths.Split, Crc, ValidateFileName, Create, CreateErrno;
  }

  lemma LinkKeepsAccount(cfg: Config, st: State, h: FileHeader, name: seq<byte>, input: seq<byte>, received: nat,
                         total: nat)
    requires CString(name) && cfg.bytesLimit != 0 && Accounted(cfg, st, received) && received <= total
    requires NoOverflow(cfg, st, total)
    ensures StepKeepsAccount(cfg, st, ReceiveLink(cfg, st, h, name, input), received + h.filelen)
  {
    hide OpenPrefixErrno, Paths.Split, Crc, ValidateFileName, ValidateSymlink, Create, CreateErrno;
  }

  lemma DirKeepsAccount(cfg: Config, st: State, h: FileHeader, name: seq<byte>, received: nat, total: nat)
    requires CString(name) && cfg.bytesLimit != 0 && Accounted(cfg, st, received) && received <= total
    requires NoOverflow(cfg, ReceiveDir(cfg, st, h, name).st, total)
    ensures StepKeepsAccount(cfg, st, ReceiveDir(cfg, st, h, name), received)
  {
    hide OpenPrefixErrno, Paths.Split, Crc, ValidateFileName, Create, CreateErrno;
  }

  lemma RecordKeepsAccount(cfg: Config, st: State, h: FileHeader, input: seq<byte>, received: nat, total: nat)
    requires cfg.bytesLimit != 0 && Accounted(cfg, st, received) && received + |input| <= total
    requires NoOverflow(cfg, ReceiveRecord(cfg, st, h, input).st, total)
    ensures StepKeepsAccount(cfg, st, ReceiveRecord(cfg, st, h, input), received + BodyLength(h))
  {
    hide ReceiveReg, ReceiveLink, ReceiveDir, Crc, AsCString;
    if h.namelen <= MAX_PATH_LENGTH - 1 && h.namelen <= |input| {
      var name, rest := AsCString(input[..h.namelen]), input[h.namelen..];
      var named := st.(crc := Crc(st.crc, input[..h.namelen]));
      if IsReg(h.mode) {
        RegKeepsAccount(cfg, named, h, name, rest, received);
      } else if IsLnk(h.mode) && cfg.flags.symlinks {
        LinkKeepsDirBytes(cfg, named, h, name, rest);
        LinkKeepsAccount(cfg, named, h, name, rest, received, total);
      } else if IsDir(h.mode) && cfg.flags.directories {
        DirKeepsAccount(cfg, named, h, name, received, total);
      }
    }
  }

  lemma LinkKeepsDirBytes(cfg: Config, st: State, h: FileHeader, name: seq<byte>, input: seq<byte>)
    requires CString(name)
    ensures ReceiveLink(cfg, st, h, name, input).st.dirBytes == st.dirBytes
  {
    hide OpenPrefixErrno, Paths.Split, Crc, ValidateSymlink, Create, CreateErrno, AsCString;
  }

  /** From any accounted state: payload bytes in the tree never exceed the limit, whatever the directories add to the
      counter. */
  lemma {:induction false} BytesNeverExceedLimit(cfg: Config, st: State, input: seq<byte>, i: nat, received: nat)
    requires cfg.bytesLimit != 0 && Accounted(cfg, st, received) && Faithful(st)
    requires i < |Turns(cfg, st, input)|
    requires forall j :: 0 <= j <= i ==> NoOverflow(cfg, Turns(cfg, st, input)[j], received + |input|)
    ensures TreeBytes(Turns(cfg, st, input)[i].fs) <= cfg.bytesLimit
    decreases |input|
  {
    hide Turns, ReceiveRecord, ParseFileHeader, Crc, BodyLength, Accounted, NoOverflow, TreeBytes;
    var turns, total := Turns(cfg, st, input), received + |input|;
    var h, st1, rest := FirstTurn(cfg, st, input);
    assert NoOverflow(cfg, turns[0], total);
    HeaderKeepsAccount(cfg, st, input[..HEADER_SIZE], received);
    RecordKeepsAccount(cfg, st1, h, rest, received + HEADER_SIZE, total);
    RecordKeepsFaithful(cfg, st1, h, rest);
    if i > 0 {
      var more := Turns(cfg, turns[0], rest[BodyLength(h)..]);
      assert forall j :: 0 <= j <= i - 1 ==> more[j] == turns[j + 1];
      BytesNeverExceedLimit(cfg, turns[0], rest[BodyLength(h)..], i - 1, received + HEADER_SIZE + BodyLength(h));
    }
  }

  /** The first record of a run, and the run that is left. */
  lemma FirstTurn(cfg: Config, st: State, input: seq<byte>) returns (h: FileHeader, st1: State, rest: seq<byte>)
    requires Turns(cfg, st, input) != []
    ensures |input| >= HEADER_SIZE && rest == input[HEADER_SIZE..]
    ensures st1 == Counted(AfterHeader(st, input[..HEADER_SIZE]))
    ensures cfg.filesLimit == 0 || st1.totalFiles <= cfg.filesLimit
    ensures var turns, r := Turns(cfg, st, input), ReceiveRecord(cfg, st1, h, rest);
            && turns[0] == r.st
            && (|turns| > 1 ==> r.Next?)
            && (r.Next? ==> BodyLength(h) <= |rest| && turns[1..] == Turns(cfg, r.st, rest[BodyLength(h)..]))
  {
    hide ReceiveRecord, ParseFileHeader, Crc, BodyLength;
    h, st1, rest := ParseFileHeader(input), Counted(AfterHeader(st, input[..HEADER_SIZE])), input[HEADER_SIZE..];
  }

  lemma HeaderKeepsAccount(cfg: Config, st: State, b: seq<byte>, received: nat)
    requires Accounted(cfg, st, received)
    ensures Accounted(cfg, Counted(AfterHeader(st, b)), received + HEADER_SIZE)
  {
  }

  /** The whole run: at every moment, the file and link bytes in the tree stay within the limit. */
  lemma QuotaHolds(cfg: Config, input: seq<byte>, i: nat)
    requires cfg.bytesLimit != 0 && i < |Turns(cfg, START, input)|
    requires forall j :: 0 <= j <= i ==> NoOverflow(cfg, Turns(cfg, START, input)[j], |input|)
    ensures TreeBytes(Turns(cfg, START, input)[i].fs) <= cfg.bytesLimit
  {
    hide Turns;
    BytesNeverExceedLimit(cfg, START, input, i, 0);
  }

  /** And so do those in the tree that a run leaves behind, however it ends. */
  lemma QuotaHoldsAtEnd(cfg: Config, input: seq<byte>)
    requires cfg.bytesLimit != 0
    requires forall j :: 0 <= j < |Turns(cfg, START, input)| ==> NoOverflow(cfg, Turns(cfg, START, input)[j], |input|)
    ensures TreeBytes(UnpackStream(cfg, input).st.fs) <= cfg.bytesLimit
  {
    hide Turns, Run;
    TurnsLeadToEnd(cfg, START, input);
    if Turns(cfg, START, input) != [] {
      QuotaHolds(cfg, input, |Turns(cfg, START, input)| - 1);
    }
  }

  // ----- The limit on records -----

  lemma RecordKeepsFileCount(cfg: Config, st: State, h: FileHeader, input: seq<byte>)
    ensures ReceiveRecord(cfg, st, h, input).st.totalFiles == st.totalFiles
  {
    hide OpenPrefixErrno, Paths.Split, Crc, ValidateFileName, ValidateSymlink, Touch, CreateErrno, BodyLength,
         AsCString;
  }

  /** No more records are processed than the limit allows. Only with the limit UINT64_MAX could the counter wrap, and
      then only on a stream of 2^64 headers. */
  lemma {:induction false} FilesNeverExceedLimit(cfg: Config, st: State, input: seq<byte>)
    requires cfg.filesLimit > 0 && st.totalFiles <= cfg.filesLimit
    requires cfg.filesLimit < TWO64 - 1 || HEADER_SIZE * st.totalFiles + |input| < HEADER_SIZE * TWO64
    ensures st.totalFiles + |Turns(cfg, st, input)| <= cfg.filesLimit
    decreases |input|
  {
    hide Turns, ReceiveRecord, ParseFileHeader, Crc, BodyLength;
    if Turns(cfg, st, input) != [] {
      var h, st1, rest := FirstTurn(cfg, st, input);
      RecordKeepsFileCount(cfg, st1, h, rest);
      var r := ReceiveRecord(cfg, st1, h, rest);
      if r.Next? {
        FilesNeverExceedLimit(cfg, r.st, rest[BodyLength(h)..]);
      }
    }
  }

  lemma FileQuotaHolds(cfg: Config, input: seq<byte>)
    requires cfg.filesLimit > 0 && (cfg.filesLimit < TWO64 - 1 || |input| < HEADER_SIZE * TWO64)
    ensures |Turns(cfg, START, input)| <= cfg.filesLimit
  {
    hide Turns;
    FilesNeverExceedLimit(cfg, START, input);
  }
}
