/** The run as a whole: protective MBR, search order, and the device being rewritten. */
module GptMain {
  import opened Bytes
  import opened GptFormat
  import opened GptCheck
  import opened GptAdjust
  import opened GptFix

  // ----- check_mbr -----

  datatype MbrResult = MbrOk(mbr: seq<byte>) | MbrExit(code: int)

  function ExpectedMbrSize(sectors: nat): uint32
    requires sectors >= 1
  {
    Min(sectors - 1, TWO32 - 1)
  }

  /** check_mbr on the first 512 bytes: the result is the MBR with its protective size corrected. */
  function CheckMbr(mbr: seq<byte>, sectors: nat, skipBpb: bool): MbrResult
    requires |mbr| == MBR_BYTES && sectors >= 1
  {
    if mbr[510] != 0x55 || mbr[511] != 0xAA then MbrExit(EXIT_NOT_PARTITIONED)
    else if mbr[450] != 0xEE then MbrExit(EXIT_UNSUPPORTED)
    else if mbr[462..510] != Zeros(48) then MbrExit(EXIT_UNSUPPORTED)
    else if Field4(mbr, 454) != 1 then MbrExit(EXIT_INVALID_GPT)
    else if !skipBpb && mbr[3..14] != Zeros(11) then MbrExit(EXIT_UNSUPPORTED)
    else MbrOk(mbr[..458] + Le(ExpectedMbrSize(sectors), 4) + mbr[462..])
  }

  /** A corrected MBR passes again and needs no further correction. */
  lemma CheckMbrIdempotent(mbr: seq<byte>, sectors: nat, skipBpb: bool)
    requires |mbr| == MBR_BYTES && sectors >= 1 && CheckMbr(mbr, sectors, skipBpb).MbrOk?
    ensures var fixed := CheckMbr(mbr, sectors, skipBpb).mbr;
            && |fixed| == MBR_BYTES && CheckMbr(fixed, sectors, skipBpb) == MbrOk(fixed)
            && fixed[..458] == mbr[..458] && fixed[462..] == mbr[462..]
            && Field4(fixed, 458) == ExpectedMbrSize(sectors)
  {
    hide Le, UnLe;
    var n := Le(ExpectedMbrSize(sectors), 4);
    var fixed := mbr[..458] + n + mbr[462..];
    assert fixed[462..510] == mbr[462..510];
    assert fixed[454..458] == mbr[454..458];
    assert fixed[3..14] == mbr[3..14];
    assert fixed[458..462] == n;
    assert fixed[..458] == mbr[..458] && fixed[462..] == mbr[462..];
    Field4At(fixed, 458, ExpectedMbrSize(sectors));
  }

  /** check_mbr in place: loops over the three empty records and over the BIOS parameter block. */
  method CheckMbrInPlace(buffer: array<byte>, sectors: nat, skipBpb: bool) returns (code: int)
    requires buffer.Length == MBR_BYTES && sectors >= 1
    modifies buffer
    ensures match CheckMbr(old(buffer[..]), sectors, skipBpb)
            case MbrExit(c) => code == c && buffer[..] == old(buffer[..])
            case MbrOk(mbr) => code == EXIT_SUCCESS && buffer[..] == mbr
  {
    hide Le, UnLe;
    var mbr := buffer[..];
    if buffer[510] != 0x55 || buffer[511] != 0xAA {
      return EXIT_NOT_PARTITIONED;
    }
    if buffer[450] != 0xEE {
      return EXIT_UNSUPPORTED;
    }
    for i := 1 to 4
      invariant forall j :: 462 <= j < 446 + 16 * i ==> buffer[j] == 0
    {
      var at := 446 + 16 * i;
      if mbr[at..at + 16] != Zeros(16) {
        ghost var j :| 0 <= j < 16 && mbr[at..at + 16][j] != 0;
        assert mbr[462..510][at - 462 + j] != 0;
        return EXIT_UNSUPPORTED;
      }
      assert forall j :: at <= j < at + 16 ==> mbr[j] == mbr[at..at + 16][j - at];
    }
    assert mbr[462..510] == Zeros(48);
    if Field4(mbr, 454) != 1 {
      return EXIT_INVALID_GPT;
    }
    if !skipBpb {
      for i := 3 to 14
        invariant forall j :: 3 <= j < i ==> buffer[j] == 0
      {
        if buffer[i] != 0 {
          assert mbr[3..14][i - 3] != 0;
          return EXIT_UNSUPPORTED;
        }
      }
      assert mbr[3..14] == Zeros(11);
    }
    var expected := Le(ExpectedMbrSize(sectors), 4);
    if Field4(mbr, 458) != ExpectedMbrSize(sectors) {
      for k := 0 to 4
        invariant buffer[..458] == mbr[..458] && buffer[462..] == mbr[462..]
        invariant buffer[458..458 + k] == expected[..k]
      {
        buffer[458 + k] := expected[k];
      }
    } else {
      LeField(mbr, 458, 4);
    }
    assert buffer[..] == buffer[..458] + buffer[458..462] + buffer[462..];
    code := EXIT_SUCCESS;
  }

  // ----- The search of main -----

  datatype Search = Current(gpt: Gpt) | Foreign(gpt: Gpt, source: nat) | SearchExit(code: int) | SearchAbort

  function OtherSize(ss: nat): nat {
    if ss == 4096 then 512 else 4096
  }

  /** Primary, then backup, for one sector size. */
  function ReadEither(crc: Checksum, d: Disk, ss: nat): (r: (Lookup, nat))
    requires Device(d, ss) && Sectors(|d|, ss) >= 1
  {
    var primary := ReadGpt(crc, d, 1, ss);
    if primary.Missing? then (ReadGpt(crc, d, Sectors(|d|, ss) - 1, ss), Sectors(|d|, ss) - 1) else (primary, 1)
  }

  /** Lines 1001-1020: tables for the device's own sector size first, then for the other one. */
  function Find(crc: Checksum, d: Disk, ss: nat): Search
    requires Device(d, ss) && Sectors(|d|, ss) >= 6
  {
    hide ReadEither;
    match ReadEither(crc, d, ss).0
    case Found(g) => Current(g)
    case Exit(code) => SearchExit(code)
    case Abort => SearchAbort
    case Missing =>
      if |d| % BIG != 0 then SearchExit(EXIT_UNSUPPORTED)
      else
        var (found, source) := ReadEither(crc, d, OtherSize(ss));
        match found
        case Found(g) => Foreign(g, source)
        case Exit(code) => SearchExit(code)
        case Abort => SearchAbort
        case Missing => SearchExit(EXIT_INVALID_GPT)
  }

  /** The assertion at line 493 stops the search exactly on 512-byte devices of 2 to 5 blocks of 4096 bytes
      that hold no table of their own; every other device gets an exit code or a table. */
  lemma SearchAbortsExactlyOnTinyDevices(crc: Checksum, d: Disk, ss: nat)
    requires Device(d, ss) && Sectors(|d|, ss) >= 6
    ensures Find(crc, d, ss) == SearchAbort
       <==> ss == 512 && |d| % BIG == 0 && 2 <= |d| / BIG <= 5 && ReadEither(crc, d, ss).0.Missing?
  {
    hide ReadEither;
    EitherAborts(crc, d, ss);
    if |d| % BIG == 0 {
      EitherAborts(crc, d, OtherSize(ss));
    }
  }

  /** One sector size: the assertion stops the search on 2 to 5 sectors. */
  lemma EitherAborts(crc: Checksum, d: Disk, ss: nat)
    requires Device(d, ss) && Sectors(|d|, ss) >= 1
    ensures ReadEither(crc, d, ss).0.Abort? <==> 2 <= Sectors(|d|, ss) <= 5
  {
    hide ReadGpt;
    ReadAborts(crc, d, 1, ss);
    ReadAborts(crc, d, Sectors(|d|, ss) - 1, ss);
  }

  lemma ReadAborts(crc: Checksum, d: Disk, off: nat, ss: nat)
    requires Device(d, ss)
    ensures ReadGpt(crc, d, off, ss).Abort?
       <==> Sectors(|d|, ss) < 6 && off < Sectors(|d|, ss) && (off == 1 || off >= 5)
  {
    hide CheckHeader, ReadTable, ParseHeader;
  }

  /** A sector that does not begin with the signature holds no header. */
  lemma NoSignatureNoTable(crc: Checksum, d: Disk, off: nat, ss: nat)
    requires Device(d, ss) && Sectors(|d|, ss) >= 6 && off < Sectors(|d|, ss)
    requires SectorAt(d, off, ss)[..8] != SIGNATURE
    ensures ReadGpt(crc, d, off, ss).Missing?
  {
    hide Field4, Field8;
    assert ParseHeader(SectorAt(d, off, ss)).signature == SectorAt(d, off, ss)[..8];
  }

  lemma BlankSectorNoTable(crc: Checksum, d: Disk, off: nat, ss: nat)
    requires Device(d, ss) && Sectors(|d|, ss) >= 6 && off < Sectors(|d|, ss)
    requires 0 <= Span(off, ss) < |d| && d[Span(off, ss)] == 0
    ensures ReadGpt(crc, d, off, ss).Missing?
  {
    assert SectorAt(d, off, ss)[..8][0] == 0 != SIGNATURE[0];
    NoSignatureNoTable(crc, d, off, ss);
  }

  /** Lines 990-1020: the protective MBR is checked before the search. */
  function SearchDevice(crc: Checksum, d: Disk, ss: nat, skipBpb: bool): Search
    requires Device(d, ss) && Sectors(|d|, ss) >= 6
  {
    match CheckMbr(d[..MBR_BYTES], Sectors(|d|, ss), skipBpb)
    case MbrExit(code) => SearchExit(code)
    case MbrOk(_) => Find(crc, d, ss)
  }

  /** So the tool as a whole aborts exactly on those devices among them whose MBR passes. */
  lemma ToolAbortsExactlyOnTinyDevices(crc: Checksum, d: Disk, ss: nat, skipBpb: bool)
    requires Device(d, ss) && Sectors(|d|, ss) >= 6
    ensures SearchDevice(crc, d, ss, skipBpb) == SearchAbort
       <==> && CheckMbr(d[..MBR_BYTES], Sectors(|d|, ss), skipBpb).MbrOk?
            && ss == 512 && |d| % BIG == 0 && 2 <= |d| / BIG <= 5 && ReadEither(crc, d, ss).0.Missing?
  {
    hide Find, ReadEither, CheckMbr;
    SearchAbortsExactlyOnTinyDevices(crc, d, ss);
  }

  /** The MBR of section 5.2.3 of the UEFI Specification for a device of `sectors` sectors. */
  function ProtectiveMbr(sectors: nat): (mbr: seq<byte>)
    requires sectors >= 1
    ensures |mbr| == MBR_BYTES
  {
    Zeros(450) + [0xEE] + Zeros(3) + Le(1, 4) + Le(ExpectedMbrSize(sectors), 4) + Zeros(48) + [0x55, 0xAA]
  }

  /** It passes on a device of any size, and comes out with the size of that device. */
  lemma ProtectiveMbrPasses(sectors: nat, n: nat, skipBpb: bool)
    requires sectors >= 1 && n >= 1
    ensures CheckMbr(ProtectiveMbr(sectors), n, skipBpb) == MbrOk(ProtectiveMbr(n))
  {
    hide Le, ExpectedMbrSize;
    var mbr := ProtectiveMbr(sectors);
    assert mbr[454..458] == Le(1, 4);
    Field4At(mbr, 454, 1);
    assert mbr[462..510] == Zeros(48) && mbr[3..14] == Zeros(11);
    assert mbr[..458] + Le(ExpectedMbrSize(n), 4) + mbr[462..] == ProtectiveMbr(n);
  }

  /** A concrete instance of the abort: a blank 4-block device with a protective MBR. */
  lemma TinyDeviceAborts(crc: Checksum, skipBpb: bool)
    ensures var d := ProtectiveMbr(32) + Zeros(4 * BIG - MBR_BYTES);
            CheckMbr(d[..MBR_BYTES], 32, skipBpb).MbrOk? && SearchDevice(crc, d, 512, skipBpb) == SearchAbort
  {
    hide ReadGpt, Find, ProtectiveMbr, CheckMbr;
    var d := ProtectiveMbr(32) + Zeros(4 * BIG - MBR_BYTES);
    assert d[..MBR_BYTES] == ProtectiveMbr(32);
    ProtectiveMbrPasses(32, 32, skipBpb);
    BlankSectorNoTable(crc, d, 1, 512);
    BlankSectorNoTable(crc, d, 31, 512);
    ToolAbortsExactlyOnTinyDevices(crc, d, 512, skipBpb);
  }

  lemma ForeignParts(crc: Checksum, d: Disk, ss: nat, g: Gpt, source: nat)
    requires Device(d, ss) && Sectors(|d|, ss) >= 6 && Find(crc, d, ss) == Foreign(g, source)
    ensures |d| % BIG == 0 && Device(d, OtherSize(ss))
    ensures source == 1 || source == Sectors(|d|, OtherSize(ss)) - 1
    ensures ReadGpt(crc, d, source, OtherSize(ss)) == Found(g)
  {
    hide ReadEither, Sectors, Aligned;
    OtherDevice(d, ss);
    EitherParts(crc, d, OtherSize(ss));
  }

  lemma OtherDevice(d: Disk, ss: nat)
    requires Device(d, ss) && Sectors(|d|, ss) >= 6
    ensures |d| % BIG == 0 ==> Device(d, OtherSize(ss)) && Sectors(|d|, OtherSize(ss)) >= 1
  {
  }

  lemma EitherParts(crc: Checksum, d: Disk, ss: nat)
    requires Device(d, ss) && Sectors(|d|, ss) >= 1
    ensures var (found, source) := ReadEither(crc, d, ss);
            && (source == 1 || source == Sectors(|d|, ss) - 1) && source >= 0
            && found == ReadGpt(crc, d, source, ss)
  {
    hide ReadGpt;
  }

  lemma FoundOnSixSectors(crc: Checksum, d: Disk, off: nat, ss: nat, g: Gpt)
    requires Device(d, ss) && ReadGpt(crc, d, off, ss) == Found(g)
    ensures Sectors(|d|, ss) >= 6 && g.Valid() && g.sectorSize == ss
  {
    hide CheckHeader, ReadTable, ParseHeader;
  }

  /** A sane foreign table can be rebuilt; if it is also convertible, the run starts as a valid job. */
  lemma ForeignTableStartsJob(crc: Checksum, d: Disk, ss: nat, g: Gpt, source: nat, mbr: seq<byte>)
    requires Device(d, ss) && Sectors(|d|, ss) >= 6 && |d| < TWO63 && |mbr| == MBR_BYTES
    requires Find(crc, d, ss) == Foreign(g, source) && g.Valid() && Sane(g, source)
    ensures Rebuildable(g, |d|) && SectorSize(ss) && ss != g.sectorSize
    ensures Verdict(g, ss, |d|) == Completed ==> Started(Job(crc, g, source, ss, |d|, mbr), d)
  {
    hide ReadGpt, Find, Rebuildable, TablePlaced, Convertible, Gpt.Valid, Sane;
    ForeignParts(crc, d, ss, g, source);
    FoundOnSixSectors(crc, d, source, OtherSize(ss), g);
    FoundIsRebuildable(crc, d, source, OtherSize(ss), g);
  }

  // ----- Running the tool again -----

  lemma MbrWritten(job: Job, d: Disk)
    requires job.Valid() && |d| == job.size && AllFit(CreateWrites(job, 1), |d|)
    ensures |d| >= MBR_BYTES && ApplyAll(d, CreateWrites(job, 1))[0..MBR_BYTES] == job.mbr
  {
    hide Gpt.Valid, Rebuildable, TablePlaced, Convertible, NewCopy, ApplyAll, EncodeHeader, DataLo, DataHi, NewCount,
         RoundUp;
    RebuildableNumbers(job.g, job.size);
    CopyPlacement(job, 1);
    var ws := CreateWrites(job, 1);
    var head, rest := ws[..1], ws[1..];
    assert ws == head + rest;
    FitParts(head, rest, |d|);
    ApplyAllConcat(d, head, rest);
    MbrFirst(d, ws[0], job.mbr);
    assert head == [ws[0]];
    ApplyAllKeeps(ApplyAll(d, head), rest, 0, MBR_BYTES);
  }

  lemma MbrFirst(d: Disk, w: Write, mbr: seq<byte>)
    requires w.Fits(|d|) && w.offset == 0 && |mbr| <= |w.data| && w.data[..|mbr|] == mbr
    ensures AllFit([w], |d|) && ApplyAll(d, [w])[0..|mbr|] == mbr
  {
    assert [w][..0] == [];
    var r := Apply(d, w);
    assert ApplyAll(d, [w]) == r by {
      assert ApplyAll(d, []) == d;
    }
    assert r[0..|w.data|] == w.data;
    SliceOfSlice(r, 0, |w.data|, 0, |mbr|);
  }

  lemma MbrAfterRun(job: Job, d: Disk)
    requires job.Valid() && |d| == job.size && AllFit(FixWrites(job), |d|)
    ensures |d| >= MBR_BYTES && ApplyAll(d, FixWrites(job))[0..MBR_BYTES] == job.mbr
  {
    hide Gpt.Valid, Rebuildable, TablePlaced, Convertible, CreateWrites, ApplyAll, DataHi, DataLo;
    FixWritesFit(job);
    var a, b := CreateWrites(job, job.FirstOffset()), CreateWrites(job, job.SecondOffset());
    ApplyAllConcat(d, a, b);
    if job.source == 1 {
      MbrWritten(job, ApplyAll(d, a));
    } else {
      MbrWritten(job, d);
      RebuildableNumbers(job.g, job.size);
      DataOnBigGrid(job);
      BackupAboveData(job);
      assert b[..|b|] == b;
      WithinAvoids(b, |b|, DataHi(job.g), job.size, 0, MBR_BYTES);
      ApplyAllKeeps(ApplyAll(d, a), b, 0, MBR_BYTES);
    }
  }

  /** Running the tool on a fixed device changes nothing: the protective MBR passes as it is, and the primary
      table for the device's own sector size is found. */
  lemma SecondRunFindsNothingToFix(job: Job, d: Disk, oldMbr: seq<byte>, skipBpb: bool)
    requires Started(job, d) && AllFit(FixWrites(job), |d|) && |oldMbr| == MBR_BYTES
    requires Sectors(job.size, job.ss) >= 6
    requires CheckMbr(oldMbr, Sectors(job.size, job.ss), skipBpb) == MbrOk(job.mbr)
    ensures var r := ApplyAll(d, FixWrites(job));
            && |r| == |d| && Device(r, job.ss)
            && CheckMbr(r[0..MBR_BYTES], Sectors(|r|, job.ss), skipBpb) == MbrOk(r[0..MBR_BYTES])
            && Find(job.crc, r, job.ss) == Current(CopyAsRead(job, 1))
  {
    hide Job.Valid, ReadGpt, FixWrites, ApplyAll, CopyAsRead, CheckMbr;
    CheckMbrIdempotent(oldMbr, Sectors(job.size, job.ss), skipBpb);
    MbrAfterRun(job, d);
    BothCopiesAfterRun(job, d);
    OneCopyIsPrimary(job);
  }

  lemma OneCopyIsPrimary(job: Job)
    requires job.Valid()
    ensures job.FirstOffset() == 1 || job.SecondOffset() == 1
  {
  }

  // ----- The device -----

  class BlockDevice {
    var bytes: Disk
    /** Contents after each write so far. */
    ghost var history: seq<Disk>

    constructor (contents: Disk)
      ensures bytes == contents && history == []
    {
      bytes, history := contents, [];
    }

    /** sync_pwrite: one write, taken to be atomic. */
    method SyncPwrite(w: Write)
      requires w.Fits(|bytes|)
      modifies this
      ensures bytes == Apply(old(bytes), w)
      ensures history == old(history) + [bytes]
    {
      bytes := bytes[..w.offset] + w.data + bytes[w.EndOffset()..];
      history := history + [bytes];
    }

    /** A run of writes, recorded one by one. */
    method WriteAll(ws: seq<Write>)
      requires AllFit(ws, |bytes|)
      modifies this
      ensures bytes == ApplyAll(old(bytes), ws)
      ensures history == old(history) + Snapshots(old(bytes), ws)
    {
      var i := 0;
      assert ws[..0] == [];
      while i < |ws|
        invariant 0 <= i <= |ws| && |bytes| == |old(bytes)|
        invariant bytes == ApplyAll(old(bytes), ws[..i])
        invariant history == old(history) + Snapshots(old(bytes), ws)[..i]
      {
        assert ws[..i + 1][..i] == ws[..i];
        SyncPwrite(ws[i]);
        i := i + 1;
      }
      assert ws[..i] == ws;
    }
  }

  ghost function Snapshots(d: Disk, ws: seq<Write>): (r: seq<Disk>)
    requires AllFit(ws, |d|)
    ensures |r| == |ws|
  {
    seq(|ws|, k requires 0 <= k < |ws| => AfterCrash(d, ws, k + 1))
  }

  datatype Outcome = Completed | ExitsWith(code: int) | AssertFails

  /** What create_new_gpt does before its first write: exit, fail the assertion of line 789, or go on. */
  function Verdict(g: Gpt, ss: nat, size: nat): Outcome
    requires g.Valid() && SectorSize(ss)
  {
    if !Convertible(g, ss, size) then ExitsWith(EXIT_CONSTRAINT)
    else if g.header.headerSize > ss then AssertFails
    else Completed
  }

  /** create_new_gpt: nothing is written unless the new table is complete and passes check_gpt_header. */
  method CreateNewGpt(dev: BlockDevice, job: Job, off: nat) returns (outcome: Outcome)
    requires Rebuildable(job.g, job.size) && SectorSize(job.ss) && job.ss != job.g.sectorSize
    requires job.source == 1 || job.source == Sectors(job.size, job.g.sectorSize) - 1
    requires TablePlaced(job.g, job.source, job.size) && |job.mbr| == MBR_BYTES
    requires off == 1 || off == Sectors(job.size, job.ss) - 1
    requires |dev.bytes| == job.size
    modifies dev
    ensures outcome == Verdict(job.g, job.ss, job.size)
    ensures outcome != Completed ==> dev.bytes == old(dev.bytes) && dev.history == old(dev.history)
    ensures outcome == Completed ==>
              && job.Valid() && AllFit(CreateWrites(job, off), job.size)
              && dev.bytes == ApplyAll(old(dev.bytes), CreateWrites(job, off))
              && dev.history == old(dev.history) + Snapshots(old(dev.bytes), CreateWrites(job, off))
  {
    hide Gpt.Valid, Rebuildable, TablePlaced, Convertible, CheckHeader, NewHeader, NewTable, NewCount, ApplyAll, AllFit,
         RequiredBytes, AfterCrash, Snapshots;
    RebuildableNumbers(job.g, job.size);
    var r := AdjustSectors(job.crc, job.g, off, job.ss, job.size);
    if r.ConstraintExit? {
      return ExitsWith(EXIT_CONSTRAINT);
    }
    RebuiltHeaderVerdict(job.crc, job.g, off, job.ss, job.size);
    if !CheckHeader(job.crc, r.gpt.header, off, job.ss, Sectors(job.size, job.ss)).Accepted? {
      return AssertFails;
    }
    assert r.gpt == NewCopy(job, off);
    WritesFit(job, off);
    dev.WriteAll(WipeWrites(job, off) + TableWrites(r.gpt, job.ss));
    outcome := Completed;
  }

  /** The fix branch of main: the copy that was not read is rewritten first. If the first call goes through, so
      does the second; a run that stops early has written nothing; and every state in between holds a good table. */
  method FixDevice(dev: BlockDevice, job: Job) returns (outcome: Outcome)
    requires Rebuildable(job.g, job.size) && SectorSize(job.ss) && job.ss != job.g.sectorSize
    requires job.source == 1 || job.source == Sectors(job.size, job.g.sectorSize) - 1
    requires TablePlaced(job.g, job.source, job.size) && |job.mbr| == MBR_BYTES
    requires |dev.bytes| == job.size && dev.history == []
    requires Device(dev.bytes, job.g.sectorSize) && Device(dev.bytes, job.ss)
    requires ReadGpt(job.crc, dev.bytes, job.source, job.g.sectorSize) == Found(job.g)
    modifies dev
    ensures outcome == Verdict(job.g, job.ss, job.size)
    ensures outcome != Completed ==> dev.bytes == old(dev.bytes) && dev.history == []
    ensures outcome == Completed ==>
              job.Valid() && AllFit(FixWrites(job), job.size) && dev.bytes == ApplyAll(old(dev.bytes), FixWrites(job))
    ensures forall k :: 0 <= k < |dev.history| ==> HoldsGoodTable(job.crc, dev.history[k], job.g)
  {
    hide Gpt.Valid, Rebuildable, TablePlaced, Convertible, CreateWrites, ApplyAll, AllFit, AfterCrash, Snapshots,
         ReadGpt, HoldsGoodTable;
    RebuildableNumbers(job.g, job.size);
    var sectors := Sectors(job.size, job.ss);
    var first, second := if job.source == 1 then sectors - 1 else 1, if job.source == 1 then 1 else sectors - 1;
    ghost var d := dev.bytes;
    outcome := CreateNewGpt(dev, job, first);
    if outcome != Completed {
      return;
    }
    ghost var a, b := CreateWrites(job, first), CreateWrites(job, second);
    ghost var middle := dev.bytes;
    ghost var before := dev.history;
    outcome := CreateNewGpt(dev, job, second);
    FixWritesFit(job);
    ApplyAllConcat(d, a, b);
    SnapshotsConcat(d, a, b);
    assert dev.history == Snapshots(d, FixWrites(job));
    forall k | 0 <= k < |dev.history| ensures HoldsGoodTable(job.crc, dev.history[k], job.g) {
      SnapshotAt(d, FixWrites(job), k);
      PartitionsNeverLost(job, d, k + 1);
    }
  }

  lemma SnapshotAt(d: Disk, ws: seq<Write>, k: nat)
    requires AllFit(ws, |d|) && k < |ws|
    ensures Snapshots(d, ws)[k] == AfterCrash(d, ws, k + 1)
  {
  }

  lemma SnapshotsConcat(d: Disk, a: seq<Write>, b: seq<Write>)
    requires AllFit(a, |d|) && AllFit(b, |d|) && AllFit(a + b, |d|)
    ensures Snapshots(d, a + b) == Snapshots(d, a) + Snapshots(ApplyAll(d, a), b)
  {
    hide ApplyAll, AfterCrash;
    forall k | 0 <= k < |a + b|
      ensures Snapshots(d, a + b)[k] == (Snapshots(d, a) + Snapshots(ApplyAll(d, a), b))[k]
    {
      if k < |a| {
        CrashInFirst(d, a, b, k + 1);
      } else {
        CrashInSecond(d, a, b, k + 1);
      }
    }
  }
}
