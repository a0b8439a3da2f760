/** The receiver as written: static counters, one record at a time, over reads of any granularity. */
module Receiver {
  import opened Bytes
  import opened Crc32
  import opened Utf8
  import opened Paths
  import opened Wire
  import opened FileSystem
  import opened Unpack
  import opened IoAll
  import opened OpenDir

  /** A handler returns, or the process ends. */
  datatype Exit = Continue | Exited(code: int, reported: bool)

  /** The outcome and the state are those of the specification. */
  predicate Agrees(spec: Step, r: Exit, st: State) {
    match spec
    case Next(st') => r == Continue && st == st'
    case Stop(st', code, reported) => r == Exited(code, reported) && st == st'
  }

  /** A run that an I/O error (or, in copy_file, an interruption) ended early, with a status other than 0. */
  predicate Disturbed(events: seq<Event>, r: Exit) {
    !Calm(events) && r.Exited? && r.code != 0
  }

  class Unpacker {
    const cfg: Config
    const input: Source
    var fs: Tree
    var totalBytes: uint64
    var totalFiles: uint64
    var crc32Sum: bv32
    ghost var written: nat
    ghost var dirBytes: nat

    constructor (cfg: Config, input: Source)
      ensures this.cfg == cfg && this.input == input && Abs() == START
    {
      this.cfg, this.input := cfg, input;
      fs, totalBytes, totalFiles, crc32Sum, written, dirBytes := map[], 0, 0, 0, 0, 0;
    }

    ghost function Abs(): State
      reads this
    {
      State(fs, totalBytes, totalFiles, crc32Sum, written, dirBytes)
    }

    /** read_all_with_crc: the checksum takes in what was read, or nothing. */
    method ReadAllWithCrc(size: nat) returns (ok: bool, errno: int, buf: seq<byte>)
      modifies this, input
      ensures Abs() == if ok then old(Abs()).(crc := Crc(old(crc32Sum), buf)) else old(Abs())
      ensures ok ==> |buf| == size && old(input.data) == buf + input.data
      ensures Calm(old(input.events)) ==>
                Calm(input.events) && (ok <==> size <= |old(input.data)|) && (!ok ==> errno == 0)
      ensures !ok ==> errno >= 0
    {
      hide Crc;
      ok, errno, buf := input.ReadAll(size);
      if ok {
        crc32Sum := ComputeBuf(crc32Sum, buf);
      }
    }

    /** opendir_safe on a copy of the name. */
    method OpenParent(name: seq<byte>) returns (errno: int)
      requires CString(name) && ValidateFileName(name, NameFlags(cfg.flags)) == 0
      ensures errno == OpenParentErrno(fs, Components(name))
    {
      hide Paths.Split, ValidateFileName, OpenPrefixErrno;
      var pathDup := new byte[|name|](i requires 0 <= i < |name| => name[i]);
      assert pathDup[..] == name;
      AcceptedNameOpens(name, cfg.flags);
      var opened', last;
      errno, opened', last := OpendirSafe(fs, pathDup);
    }

    method ValidateName(name: seq<byte>) returns (rc: int)
      requires CString(name)
      ensures rc == ValidateFileName(name, NameFlags(cfg.flags))
    {
      hide ScanPath;
      var res := ValidatePath(name, 0, NameFlags(cfg.flags));
      rc := if res > 0 then 0 else -EILSEQ;
    }

    /** Lines 231-247: copy the payload into the new file, then set its mode and times. */
    method CopyPayload(h: FileHeader, p: Path) returns (r: Exit)
      modifies this, input
      ensures Calm(old(input.events)) ==> Calm(input.events)
      ensures || Disturbed(old(input.events), r)
              || (&& Agrees(StoreFile(old(Abs()), h, p, old(input.data)), r, Abs())
                  && (r == Continue ==> h.filelen <= |old(input.data)| && input.data == old(input.data)[h.filelen..]))
    {
      hide Crc;
      totalBytes := U64(totalBytes + h.filelen);
      var sink := new Sink([]);
      var status, crc, moved := CopyFile(sink, input, h.filelen, crc32Sum);
      crc32Sum := crc;
      fs := fs[p := File(0, None, moved)];
      written := written + |moved|;
      assert moved == old(input.data)[..|moved|];
      if status != CopyOk {
        return Exited(LEGAL_EOF, true);
      }
      if !GoodTimes(h) {
        return Exited(1, false);
      }
      fs := fs[p := File(h.mode % 4096, Some(HeaderTimes(h)), moved)];
      r := Continue;
    }

    /** process_one_file_reg */
    method ProcessReg(h: FileHeader, name: seq<byte>) returns (r: Exit)
      requires CString(name)
      modifies this, input
      ensures Calm(old(input.events)) ==> Calm(input.events)
      ensures || Disturbed(old(input.events), r)
              || (&& Agrees(ReceiveReg(cfg, old(Abs()), h, name, old(input.data)), r, Abs())
                  && (r == Continue ==> h.filelen <= |old(input.data)| && input.data == old(input.data)[h.filelen..]))
    {
      hide Crc, Paths.Split, ValidateFileName, OpenPrefixErrno, CreateErrno, CString, Create, StoreFile;
      var rc := ValidateName(name);
      if rc != 0 {
        return Exited(-rc, true);
      }
      var e := OpenParent(name);
      var p := Components(name);
      if e != 0 {
        return Exited(e, true);
      }
      e := CreateErrno(fs, p);
      if e != 0 {
        return Exited(e, true);
      }
      fs := Create(fs, p, File(0, None, []));
      if h.filelen > LLONG_MAX || (cfg.bytesLimit != 0 && h.filelen > cfg.bytesLimit) {
        return Exited(EDQUOT, true);
      }
      if cfg.bytesLimit != 0 && totalBytes > cfg.bytesLimit - h.filelen {
        return Exited(EDQUOT, true);
      }
      r := CopyPayload(h, p);
    }

    /** process_one_file_link */
    method ProcessLink(h: FileHeader, name: seq<byte>) returns (r: Exit)
      requires CString(name)
      modifies this, input
      ensures Calm(old(input.events)) ==> Calm(input.events)
      ensures || Disturbed(old(input.events), r)
              || (&& Agrees(ReceiveLink(cfg, old(Abs()), h, name, old(input.data)), r, Abs())
                  && (r == Continue ==> h.filelen <= |old(input.data)| && input.data == old(input.data)[h.filelen..]))
    {
      hide Crc, Paths.Split, OpenPrefixErrno, CreateErrno, CString, Create, MakeLink, AsCString;
      if h.filelen > MAX_PATH_LENGTH - 1 {
        return Exited(ENAMETOOLONG, true);
      }
      totalBytes := U64(totalBytes + h.filelen);
      if cfg.bytesLimit != 0 && totalBytes > cfg.bytesLimit {
        return Exited(EDQUOT, true);
      }
      var ok, _, content := ReadAllWithCrc(h.filelen);
      if !ok {
        return Exited(LEGAL_EOF, true);
      }
      assert content == old(input.data)[..h.filelen];
      r := CreateLink(name, AsCString(content));
    }

    /** Lines 314-325: validate name and target, then make the link. */
    method CreateLink(name: seq<byte>, target: seq<byte>) returns (r: Exit)
      requires CString(name) && CString(target)
      modifies this
      ensures Agrees(MakeLink(cfg, old(Abs()), name, target), r, Abs())
    {
      hide Crc, Paths.Split, OpenPrefixErrno, CreateErrno, CString, Create, ScanPath;
      var rc := ValidateLink(name, target);
      if rc != 0 {
        return Exited(-rc, true);
      }
      LinkNameIsValid(name, target, NameFlags(cfg.flags));
      var e := OpenParent(name);
      var p := Components(name);
      if e != 0 {
        return Exited(e, true);
      }
      if Content(target) == [] {
        return Exited(ENOENT, true);
      }
      e := CreateErrno(fs, p);
      if e != 0 {
        return Exited(e, true);
      }
      fs := Create(fs, p, Link(Content(target)));
      written := written + |Content(target)|;
      r := Continue;
    }

    /** qubes_pure_validate_symbolic_link_v2 over the scanning loop. */
    method ValidateLink(name: seq<byte>, target: seq<byte>) returns (rc: int)
      requires CString(name) && CString(target)
      ensures rc == ValidateSymlink(name, target, NameFlags(cfg.flags))
    {
      hide ScanPath, CString;
      var flags := NameFlags(cfg.flags);
      var depth := ValidatePath(name, 0, flags);
      if depth < 0 {
        return -EILSEQ;
      }
      if flags.unsafeSymlinks {
        return if depth > 0 then 0 else -ENOLINK;
      }
      if depth < 2 {
        return -ENOLINK;
      }
      var res := ValidatePath(target, depth - 2, TargetFlags(flags));
      rc := if res < 0 then res else 0;
    }

    /** process_one_file_dir */
    method ProcessDir(h: FileHeader, name: seq<byte>) returns (r: Exit)
      requires CString(name)
      modifies this
      ensures Agrees(ReceiveDir(cfg, old(Abs()), h, name), r, Abs())
    {
      hide Crc, Paths.Split, ValidateFileName, OpenPrefixErrno, CreateErrno, CString, Create;
      var rc := ValidateName(name);
      if rc != 0 {
        return Exited(rc, true);
      }
      var e := OpenParent(name);
      var p := Components(name);
      if e != 0 {
        return Exited(e, true);
      }
      e := CreateErrno(fs, p);
      if e == 0 {
        fs := Create(fs, p, Dir(MODE_RWX, None));
        return Continue;
      }
      if e != EEXIST {
        return Exited(e, true);
      }
      if p !in fs || !fs[p].Dir? {
        return Exited(ENOTDIR, true);
      }
      if !Readable(fs[p].mode) {
        return Exited(EACCES, true);
      }
      var size := cfg.dirSize(fs, p);
      totalBytes := U64(totalBytes + size);
      dirBytes := dirBytes + size;
      if !GoodTimes(h) {
        return Exited(1, false);
      }
      fs := fs[p := Dir(h.mode % 4096, Some(HeaderTimes(h)))];
      r := Continue;
    }

    /** process_one_file */
    method ProcessOneFile(h: FileHeader) returns (r: Exit)
      modifies this, input
      ensures Calm(old(input.events)) ==> Calm(input.events)
      ensures || Disturbed(old(input.events), r)
              || (&& Agrees(ReceiveRecord(cfg, old(Abs()), h, old(input.data)), r, Abs())
                  && (r == Continue ==>
                        BodyLength(h) <= |old(input.data)| && input.data == old(input.data)[BodyLength(h)..]))
    {
      hide Crc, ReceiveReg, ReceiveLink, ReceiveDir, AsCString;
      if h.namelen > MAX_PATH_LENGTH - 1 {
        return Exited(ENAMETOOLONG, true);
      }
      var ok, _, namebuf := ReadAllWithCrc(h.namelen);
      if !ok {
        return Exited(LEGAL_EOF, true);
      }
      assert namebuf == old(input.data)[..h.namelen] && input.data == old(input.data)[h.namelen..];
      var name := AsCString(namebuf);
      if IsReg(h.mode) {
        r := ProcessReg(h, name);
      } else if IsLnk(h.mode) && cfg.flags.symlinks {
        r := ProcessLink(h, name);
      } else if IsDir(h.mode) && cfg.flags.directories {
        r := ProcessDir(h, name);
      } else {
        r := Exited(EINVAL, true);
      }
    }

    /** do_unpack_ext. The run follows the specification byte for byte, however the reads are cut; an I/O error can
        only turn it into a failure. */
    method DoUnpackExt() returns (code: int, reported: bool)
      requires Abs() == START
      modifies this, input
      ensures Calm(old(input.events)) ==>
                var e := UnpackStream(cfg, old(input.data));
                code == e.code && reported == e.reported && Abs() == e.st
      ensures code == 0 && reported ==>
                Succeeds(UnpackStream(cfg, old(input.data))) && Abs() == UnpackStream(cfg, old(input.data)).st
    {
      hide Crc, ReceiveRecord, BodyLength, ParseFileHeader, Run;
      ghost var all := input.data;
      while true
        invariant Calm(old(input.events)) ==> Calm(input.events)
        invariant Run(cfg, START, all) == Run(cfg, Abs(), input.data)
        decreases |input.data|
      {
        ghost var st, data := Abs(), input.data;
        var ok, errno, buf := ReadAllWithCrc(HEADER_SIZE);
        if !ok {
          RunAtEnd(cfg, st, data);
          return FinalStatus(cfg, if errno == 0 then EREMOTEIO else errno), true;
        }
        HeaderRead(data, buf, input.data);
        var h := ParseFileHeader(buf);
        if h.namelen == 0 {
          RunAtMarker(cfg, st, data);
          return FinalStatus(cfg, 0), true;
        }
        totalFiles := U64(totalFiles + 1);
        if cfg.filesLimit != 0 && totalFiles > cfg.filesLimit {
          RunOverLimit(cfg, st, data);
          return EDQUOT, true;
        }
        ghost var body, st1 := input.data, Abs();
        var r := ProcessOneFile(h);
        RunRecordCases(cfg, st, data);
        StopIsFailure(cfg, st1, h, body);
        if r.Exited? {
          return r.code, r.reported;
        }
      }
    }
  }

  lemma LinkNameIsValid(name: seq<byte>, target: seq<byte>, flags: Flags)
    requires CString(name) && CString(target) && ValidateSymlink(name, target, flags) == 0
    ensures ValidateFileName(name, flags) == 0
  {
    hide ScanPath;
  }

  lemma HeaderRead(data: seq<byte>, buf: seq<byte>, rest: seq<byte>)
    requires data == buf + rest && |buf| == HEADER_SIZE
    ensures buf == data[..HEADER_SIZE] && rest == data[HEADER_SIZE..] && ParseFileHeader(buf) == ParseFileHeader(data)
  {
    assert buf[..HEADER_SIZE] == buf;
    HeaderPrefix(data, buf);
  }

  lemma RunAtEnd(cfg: Config, st: State, input: seq<byte>)
    ensures |input| < HEADER_SIZE ==> Run(cfg, st, input) == End(st, FinalStatus(cfg, EREMOTEIO), true, [])
  {
  }

  lemma RunOverLimit(cfg: Config, st: State, input: seq<byte>)
    requires |input| >= HEADER_SIZE && ParseFileHeader(input).namelen != 0
    requires var st1 := Counted(AfterHeader(st, input[..HEADER_SIZE]));
             cfg.filesLimit != 0 && st1.totalFiles > cfg.filesLimit
    ensures Run(cfg, st, input) == End(Counted(AfterHeader(st, input[..HEADER_SIZE])), EDQUOT, true, [])
  {
    hide Crc, ParseFileHeader;
  }

  lemma RunRecordCases(cfg: Config, st: State, input: seq<byte>)
    requires |input| >= HEADER_SIZE && ParseFileHeader(input).namelen != 0
    requires var st1 := Counted(AfterHeader(st, input[..HEADER_SIZE]));
             !(cfg.filesLimit != 0 && st1.totalFiles > cfg.filesLimit)
    ensures var h, rest := ParseFileHeader(input), input[HEADER_SIZE..];
            match ReceiveRecord(cfg, Counted(AfterHeader(st, input[..HEADER_SIZE])), h, rest)
            case Stop(st', code, reported) => Run(cfg, st, input) == End(st', code, reported, [])
            case Next(st') => BodyLength(h) <= |rest| && Run(cfg, st, input) == Run(cfg, st', rest[BodyLength(h)..])
  {
    hide Crc, ParseFileHeader, ReceiveRecord;
  }
}
