/** A device that gets its old sector size back after a fix run. */
module GptReturn {
  import opened Bytes
  import opened GptFormat
  import opened GptCheck
  import opened GptAdjust
  import opened GptFix
  import opened GptMain
  import opened GptRoundTrip
  import opened GptStray
  import opened GptRecovery

  /** Below the partitions only the primary copy has been written, above them only the backup copy. */
  lemma AfterBothCopies(job: Job, d: Disk) returns (e: Disk, f: Disk)
    requires job.Valid() && |d| == job.size && AllFit(FixWrites(job), |d|)
    ensures |e| == |f| == |d| && DataLo(job.g) <= |d| && DataHi(job.g) <= |d|
    ensures AllFit(CreateWrites(job, 1), |d|) && AllFit(CreateWrites(job, Sectors(job.size, job.ss) - 1), |d|)
    ensures var r := ApplyAll(d, FixWrites(job));
            && r[0..DataLo(job.g)] == ApplyAll(e, CreateWrites(job, 1))[0..DataLo(job.g)]
            && r[DataHi(job.g)..|d|]
               == ApplyAll(f, CreateWrites(job, Sectors(job.size, job.ss) - 1))[DataHi(job.g)..|d|]
  {
    hide Gpt.Valid, Rebuildable, Convertible, TablePlaced, CreateWrites, ApplyAll, AllFit, AllWithin, AllAvoid,
         DataLo, DataHi;
    RebuildableNumbers(job.g, job.size);
    FixWritesFit(job);
    DataOnBigGrid(job);
    PrimaryBelowData(job);
    BackupAboveData(job);
    var a, b := CreateWrites(job, job.FirstOffset()), CreateWrites(job, job.SecondOffset());
    ApplyAllConcat(d, a, b);
    var m := ApplyAll(d, a);
    assert b[..|b|] == b;
    if job.source == 1 {
      e, f := m, d;
      WithinAvoids(b, |b|, 0, DataLo(job.g), DataHi(job.g), |d|);
      ApplyAllKeeps(m, b, DataHi(job.g), |d|);
    } else {
      e, f := d, m;
      WithinAvoids(b, |b|, DataHi(job.g), job.size, 0, DataLo(job.g));
      ApplyAllKeeps(m, b, 0, DataLo(job.g));
    }
  }

  lemma PrimaryCopyWide(job: Job, e: Disk)
    requires job.Valid() && |e| == job.size && AllFit(CreateWrites(job, 1), |e|) && job.ss == 4096
    ensures |e| > 1024 && ApplyAll(e, CreateWrites(job, 1))[512..520] != SIGNATURE
  {
    hide Gpt.Valid, Rebuildable, Convertible, TablePlaced, CreateWrites, NewCopy, ApplyAll;
    PrimaryWrites(job);
    var p := CreateWrites(job, 1);
    LastCover(e, p, 0, 512, 520);
    assert p[0].data[512..520][0] == 0 != SIGNATURE[0];
  }

  lemma BackupCopyWide(job: Job, f: Disk)
    requires job.Valid() && |f| == job.size && job.ss == 4096
    requires AllFit(CreateWrites(job, Sectors(job.size, job.ss) - 1), |f|)
    ensures |f| > 1024
    ensures ApplyAll(f, CreateWrites(job, Sectors(job.size, job.ss) - 1))[|f| - 512..|f| - 504] != SIGNATURE
  {
    hide Gpt.Valid, Rebuildable, Convertible, TablePlaced, CreateWrites, NewCopy, ApplyAll, EncodeHeader;
    BackupWrites(job);
    var q, lo := CreateWrites(job, Sectors(job.size, job.ss) - 1), |f| - 512;
    LastCover(f, q, 2, lo, lo + 8);
    assert q[2].data[3584..3592][0] == 0 != SIGNATURE[0];
  }

  lemma PrimaryCopyNarrow(job: Job, e: Disk)
    requires job.Valid() && |e| == job.size && AllFit(CreateWrites(job, 1), |e|) && job.ss == 512
    ensures |e| > 8192 && ApplyAll(e, CreateWrites(job, 1))[4096..8192] == Spilled(NewCopy(job, 1).entries)
  {
    hide Gpt.Valid, Rebuildable, Convertible, TablePlaced, CreateWrites, NewCopy, ApplyAll, Spilled;
    RebuildableNumbers(job.g, job.size);
    PrimaryWrites(job);
    var p, entries := CreateWrites(job, 1), NewCopy(job, 1).entries;
    PrefixFits(p, 4, |e|);
    TableOverWipe(e, p[..4], entries);
    ApplyAllLast(e, p);
    ApplyKeeps(ApplyAll(e, p[..4]), p[4], 4096, 8192);
  }

  /** The last 4096 bytes of r begin with an entry of the table, or are blank there. */
  ghost predicate EntryNearEnd(r: Disk, entries: seq<byte>)
    requires |r| > 8192
  {
    var lo, x := |r| - 4096, |entries| - 3584;
    if x >= 0 then r[lo..lo + ENTRY_BYTES] == entries[x..x + ENTRY_BYTES] else r[lo] == 0
  }

  lemma TableNearEnd(f: Disk, q: seq<Write>, entries: seq<byte>)
    requires |f| > 8192 && |q| == 3 && AllFit(q, |f|) && |entries| % 512 == 0
    requires q[0] == Write(|f| - 4096, Zeros(4096)) && q[1].data == entries
    requires q[1].EndOffset() == |f| - 512 == q[2].offset
    ensures EntryNearEnd(ApplyAll(f, q), entries)
  {
    hide ApplyAll;
    var lo := |f| - 4096;
    if |entries| >= 3584 {
      assert AllAvoid(q[2..], lo, lo + ENTRY_BYTES);
      LastCover(f, q, 1, lo, lo + ENTRY_BYTES);
    } else {
      assert AllAvoid(q[1..], lo, lo + 8);
      LastCover(f, q, 0, lo, lo + 8);
      assert ApplyAll(f, q)[lo] == ApplyAll(f, q)[lo..lo + 8][0] == q[0].data[0..8][0] == 0;
    }
  }

  lemma BackupCopyNarrow(job: Job, f: Disk)
    requires job.Valid() && |f| == job.size && job.ss == 512
    requires AllFit(CreateWrites(job, Sectors(job.size, job.ss) - 1), |f|)
    ensures |f| > 8192
    ensures var last := Sectors(job.size, job.ss) - 1;
            EntryNearEnd(ApplyAll(f, CreateWrites(job, last)), NewCopy(job, last).entries)
  {
    hide Gpt.Valid, Rebuildable, Convertible, TablePlaced, CreateWrites, NewCopy, ApplyAll, EncodeHeader, AllFit,
         EntryNearEnd;
    var last := Sectors(job.size, job.ss) - 1;
    BackupWrites(job);
    WholeSectorsOfEntries(job, last);
    TableNearEnd(f, CreateWrites(job, last), NewCopy(job, last).entries);
  }

  /** What the search makes of the last 4096 bytes. */
  lemma BackupTableRead(job: Job, r: Disk, off: nat)
    requires CopyOf(job, off) && off > 1 && job.ss == 512 && |r| == job.size > 8192
    requires Device(r, 4096) && Sectors(|r|, 4096) >= 6 && EntryNearEnd(r, NewCopy(job, off).entries)
    ensures ReadGpt(job.crc, r, Sectors(|r|, 4096) - 1, 4096) == BackupLookup(job)
  {
    hide Job.Valid, NewCopy, ReadGpt, MimicAt, BackupIndex, Sectors, Span, SectorAt, Device;
    WholeSectorsOfEntries(job, off);
    LastWideSector(r);
    if |NewCopy(job, off).entries| >= 3584 {
      BackupEntryRead(job, r, off, BackupIndex(job));
    } else {
      BlankSectorNoTable(job.crc, r, Sectors(|r|, 4096) - 1, 4096);
    }
  }

  /** The lookups that the entries at the two positions lead to. */
  ghost function PrimaryLookup(job: Job): Lookup
    requires job.Valid()
  {
    if MimicAt(job, PRIMARY_INDEX) then Exit(EXIT_UNSUPPORTED) else Missing
  }

  ghost function BackupLookup(job: Job): Lookup
    requires job.Valid()
  {
    if BackupIndex(job) >= 0 && MimicAt(job, BackupIndex(job)) then Exit(EXIT_UNSUPPORTED) else Missing
  }

  lemma BackupEntryRead(job: Job, r: Disk, off: nat, i: nat)
    requires CopyOf(job, off) && job.ss == 512 && |r| == job.size && Device(r, 4096) && Sectors(|r|, 4096) >= 6
    requires ENTRY_BYTES * i + 3584 == |NewCopy(job, off).entries|
    requires SectorAt(r, Sectors(|r|, 4096) - 1, 4096)[..ENTRY_BYTES]
          == NewCopy(job, off).entries[ENTRY_BYTES * i..ENTRY_BYTES * i + ENTRY_BYTES]
    ensures ReadGpt(job.crc, r, Sectors(|r|, 4096) - 1, 4096)
         == if MimicAt(job, i) then Exit(EXIT_UNSUPPORTED) else Missing
  {
    hide Job.Valid, NewCopy, ReadGpt, MimicAt, Unsupported, Used, Start, End, Sectors, SectorAt, Device;
    var e := PaddedEntry(job, off, i);
    assert Sectors(|r|, 4096) - 1 >= 5;
    EntryRead(job.crc, r, Sectors(|r|, 4096) - 1, e);
  }

  lemma LastWideSector(r: Disk)
    requires Device(r, 4096) && Sectors(|r|, 4096) >= 6
    ensures var last, lo := Sectors(|r|, 4096) - 1, |r| - 4096;
            Span(last, 4096) == lo >= 0 && SectorAt(r, last, 4096)[..ENTRY_BYTES] == r[lo..lo + ENTRY_BYTES]
  {
    SliceOfSlice(r, |r| - 4096, |r|, 0, ENTRY_BYTES);
  }

  lemma SameInside(r: seq<byte>, s: seq<byte>, lo: nat, hi: nat, x: nat, y: nat)
    requires lo <= x <= y <= hi <= |r| && |s| == |r| && r[lo..hi] == s[lo..hi]
    ensures r[x..y] == s[x..y]
  {
    SliceOfSlice(r, lo, hi, x - lo, y - lo);
    SliceOfSlice(s, lo, hi, x - lo, y - lo);
  }

  /** With 4096-byte sectors the run leaves nothing at the header positions of 512-byte ones. */
  lemma NothingAtNarrowPositions(job: Job, d: Disk)
    requires job.Valid() && |d| == job.size && AllFit(FixWrites(job), |d|) && job.ss == 4096
    ensures var r := ApplyAll(d, FixWrites(job));
            |d| > 1024 && r[512..520] != SIGNATURE && r[|d| - 512..|d| - 504] != SIGNATURE
  {
    hide Gpt.Valid, Rebuildable, Convertible, TablePlaced, CreateWrites, FixWrites, ApplyAll, DataLo, DataHi, AllFit;
    RebuildableNumbers(job.g, job.size);
    DataOnBigGrid(job);
    var e, f := AfterBothCopies(job, d);
    var r, last := ApplyAll(d, FixWrites(job)), Sectors(job.size, job.ss) - 1;
    PrimaryCopyWide(job, e);
    BackupCopyWide(job, f);
    SameInside(r, ApplyAll(e, CreateWrites(job, 1)), 0, DataLo(job.g), 512, 520);
    SameInside(r, ApplyAll(f, CreateWrites(job, last)), DataHi(job.g), |d|, |d| - 512, |d| - 504);
  }

  /** Both header positions of 4096-byte sectors give what the entries there lead to. */
  ghost predicate EntriesRead(job: Job, r: Disk)
    requires job.Valid() && Device(r, 4096) && Sectors(|r|, 4096) >= 6
  {
    && ReadGpt(job.crc, r, 1, 4096) == PrimaryLookup(job)
    && ReadGpt(job.crc, r, Sectors(|r|, 4096) - 1, 4096) == BackupLookup(job)
  }

  /** With 512-byte sectors it may leave an entry at those of 4096-byte ones. */
  lemma EntriesAtWidePositions(job: Job, d: Disk)
    requires job.Valid() && |d| == job.size && AllFit(FixWrites(job), |d|) && job.ss == 512
    requires Device(d, 4096) && Sectors(|d|, 4096) >= 6
    ensures EntriesRead(job, ApplyAll(d, FixWrites(job)))
  {
    hide Gpt.Valid, Rebuildable, Convertible, TablePlaced, CreateWrites, FixWrites, ApplyAll, DataLo, DataHi, AllFit,
         NewCopy, ReadGpt, MimicAt, BackupLookup, Spilled, EntryNearEnd;
    RebuildableNumbers(job.g, job.size);
    DataOnBigGrid(job);
    var e, f := AfterBothCopies(job, d);
    var r, last := ApplyAll(d, FixWrites(job)), Sectors(job.size, job.ss) - 1;
    PrimaryCopyNarrow(job, e);
    SameInside(r, ApplyAll(e, CreateWrites(job, 1)), 0, DataLo(job.g), 4096, 8192);
    SpilledRead(job, r);
    BackupCopyNarrow(job, f);
    NearEndCarries(r, ApplyAll(f, CreateWrites(job, last)), NewCopy(job, last).entries, DataHi(job.g));
    BackupTableRead(job, r, last);
  }

  lemma NearEndCarries(r: Disk, s: Disk, entries: seq<byte>, lo: nat)
    requires |r| == |s| > 8192 && lo <= |r| - 4096 && r[lo..|r|] == s[lo..|r|] && EntryNearEnd(s, entries)
    ensures EntryNearEnd(r, entries)
  {
    var x := |r| - 4096;
    SameInside(r, s, lo, |r|, x, x + ENTRY_BYTES);
    assert r[x] == r[x..x + ENTRY_BYTES][0] && s[x] == s[x..x + ENTRY_BYTES][0];
  }

  /** On a device that gets its old sector size back after a run, the search finds the new primary copy, or it stops at
      an entry that looks like an unsupported header. */
  lemma SearchAfterRun(job: Job, d: Disk)
    requires Started(job, d) && AllFit(FixWrites(job), |d|)
    ensures SectorSize(job.g.sectorSize) && Sectors(job.size, job.g.sectorSize) >= 6
    ensures var r, ss := ApplyAll(d, FixWrites(job)), job.g.sectorSize;
            && Device(r, ss)
            && Find(job.crc, r, ss)
               == if Mimicry(job) then SearchExit(EXIT_UNSUPPORTED) else Foreign(CopyAsRead(job, 1), 1)
  {
    hide Job.Valid, FixWrites, ApplyAll, ReadGpt, AllFit, CopyAsRead, Find, MimicAt, BackupIndex, Sectors, Aligned,
         Span, Mimicry;
    RunSizes(job);
    if job.ss == 4096 {
      SearchAfterWidening(job, d);
    } else {
      SearchAfterNarrowing(job, d);
    }
  }

  lemma SearchAfterWidening(job: Job, d: Disk)
    requires Started(job, d) && AllFit(FixWrites(job), |d|) && job.ss == 4096
    ensures !Mimicry(job)
    ensures var r := ApplyAll(d, FixWrites(job)); Device(r, 512) && Sectors(|r|, 512) >= 6
    ensures Find(job.crc, ApplyAll(d, FixWrites(job)), 512) == Foreign(CopyAsRead(job, 1), 1)
  {
    hide Job.Valid, FixWrites, ApplyAll, ReadGpt, AllFit, CopyAsRead, Find, MimicAt, BackupIndex, Sectors, Aligned,
         Span;
    RunSizes(job);
    PrimaryAfterRun(job, d);
    NothingAtNarrowPositions(job, d);
    FindsForeign(job.crc, ApplyAll(d, FixWrites(job)), 512, CopyAsRead(job, 1));
  }

  lemma SearchAfterNarrowing(job: Job, d: Disk)
    requires Started(job, d) && AllFit(FixWrites(job), |d|) && job.ss == 512
    ensures var r := ApplyAll(d, FixWrites(job));
            && Device(r, 4096) && Sectors(|r|, 4096) >= 6
            && Find(job.crc, r, 4096)
               == if Mimicry(job) then SearchExit(EXIT_UNSUPPORTED) else Foreign(CopyAsRead(job, 1), 1)
  {
    hide Job.Valid, FixWrites, ApplyAll, ReadGpt, AllFit, CopyAsRead, Find, EntriesRead, Sectors, Mimicry, Device,
         Span;
    RunSizes(job);
    WholeSectorsOfBothSizes(d);
    PrimaryAfterRun(job, d);
    EntriesAtWidePositions(job, d);
    var r := ApplyAll(d, FixWrites(job));
    WholeSectorsOfBothSizes(r);
    EntriesDecide(job, r);
  }

  lemma EntriesDecide(job: Job, r: Disk)
    requires job.Valid() && job.ss == 512 && |r| % BIG == 0 && Device(r, 512) && Device(r, 4096)
    requires Sectors(|r|, 512) >= 6 && Sectors(|r|, 4096) >= 6
    requires ReadGpt(job.crc, r, 1, 512) == Found(CopyAsRead(job, 1))
    requires EntriesRead(job, r)
    ensures Find(job.crc, r, 4096)
         == if Mimicry(job) then SearchExit(EXIT_UNSUPPORTED) else Foreign(CopyAsRead(job, 1), 1)
  {
    hide Job.Valid, ReadGpt, CopyAsRead, Find, MimicAt, BackupIndex, Sectors, Device;
    var p, q := MimicAt(job, PRIMARY_INDEX), BackupIndex(job) >= 0 && MimicAt(job, BackupIndex(job));
    FindsForeignOrExits(job.crc, r, 4096, CopyAsRead(job, 1), p, q);
  }

  lemma FindsForeignOrExits(crc: Checksum, r: Disk, ss: nat, g: Gpt, p: bool, q: bool)
    requires Device(r, ss) && Sectors(|r|, ss) >= 6 && |r| % BIG == 0
    requires ReadGpt(crc, r, 1, ss) == if p then Exit(EXIT_UNSUPPORTED) else Missing
    requires ReadGpt(crc, r, Sectors(|r|, ss) - 1, ss) == if q then Exit(EXIT_UNSUPPORTED) else Missing
    requires Device(r, OtherSize(ss)) && Sectors(|r|, OtherSize(ss)) >= 6
    requires ReadGpt(crc, r, 1, OtherSize(ss)) == Found(g)
    ensures Find(crc, r, ss) == if p || q then SearchExit(EXIT_UNSUPPORTED) else Foreign(g, 1)
  {
    hide ReadGpt, Sectors, Find;
    FindUnfold(crc, r, ss);
  }

  lemma FindsForeign(crc: Checksum, r: Disk, ss: nat, g: Gpt)
    requires SectorSize(ss) && |r| % BIG == 0 && |r| >= 6 * BIG
    requires r[ss..ss + 8] != SIGNATURE && r[|r| - ss..|r| - ss + 8] != SIGNATURE
    requires Device(r, OtherSize(ss)) && ReadGpt(crc, r, 1, OtherSize(ss)) == Found(g)
    ensures Device(r, ss) && Sectors(|r|, ss) >= 6 && Find(crc, r, ss) == Foreign(g, 1)
  {
    hide ReadGpt;
    SignatureAt(r, 1, ss);
    SignatureAt(r, Sectors(|r|, ss) - 1, ss);
    NoSignatureNoTable(crc, r, 1, ss);
    NoSignatureNoTable(crc, r, Sectors(|r|, ss) - 1, ss);
  }

  /** The same for the tool as a whole, whose MBR check passes. */
  lemma ToolAfterRun(job: Job, d: Disk, skipBpb: bool) returns (mbr: seq<byte>)
    requires Started(job, d) && AllFit(FixWrites(job), |d|) && Sectors(job.size, job.ss) >= 6
    requires |d| >= MBR_BYTES && CheckMbr(d[..MBR_BYTES], Sectors(job.size, job.ss), skipBpb) == MbrOk(job.mbr)
    ensures var r, ss := ApplyAll(d, FixWrites(job)), job.g.sectorSize;
            && Device(r, ss) && Sectors(|r|, ss) >= 6
            && CheckMbr(r[..MBR_BYTES], Sectors(|r|, ss), skipBpb) == MbrOk(mbr) && |mbr| == MBR_BYTES
            && SearchDevice(job.crc, r, ss, skipBpb)
               == if Mimicry(job) then SearchExit(EXIT_UNSUPPORTED) else Foreign(CopyAsRead(job, 1), 1)
  {
    hide Job.Valid, FixWrites, ApplyAll, ReadGpt, AllFit, CheckMbr, Mimicry, CopyAsRead, Find, Sectors, Aligned, Span;
    RunSizes(job);
    var r, ss := ApplyAll(d, FixWrites(job)), job.g.sectorSize;
    MbrAfterRun(job, d);
    assert r[..MBR_BYTES] == r[0..MBR_BYTES] == job.mbr;
    mbr := MbrForOtherSize(d[..MBR_BYTES], job.mbr, Sectors(job.size, job.ss), Sectors(job.size, ss), skipBpb);
    SearchAfterRun(job, d);
  }

  lemma SignatureAt(r: Disk, off: nat, ss: nat)
    requires Device(r, ss) && off < Sectors(|r|, ss)
    ensures 0 <= Span(off, ss) && Span(off, ss) + ss <= |r|
    ensures SectorAt(r, off, ss)[..8] == r[Span(off, ss)..Span(off, ss) + 8]
  {
    SliceOfSlice(r, Span(off, ss), Span(off, ss) + ss, 0, 8);
  }

  /** A corrected MBR passes for any number of sectors. */
  lemma MbrForOtherSize(before: seq<byte>, mbr: seq<byte>, n: nat, n': nat, skipBpb: bool) returns (mbr': seq<byte>)
    requires |before| == MBR_BYTES && n >= 1 && n' >= 1 && CheckMbr(before, n, skipBpb) == MbrOk(mbr)
    ensures |mbr| == MBR_BYTES && CheckMbr(mbr, n', skipBpb) == MbrOk(mbr') && |mbr'| == MBR_BYTES
  {
    hide Le, UnLe, ExpectedMbrSize;
    CheckMbrIdempotent(before, n, skipBpb);
    mbr' := mbr[..458] + Le(ExpectedMbrSize(n'), 4) + mbr[462..];
  }

  /** Two whole runs of the tool, there and back: on the device with its old sector size the MBR passes and the search
      leads to the new copy; the second run starts, completes, and leaves a primary table with the original entries,
      cut to those there was room for. */
  lemma RoundTripOnDevice(job: Job, d: Disk, skipBpb: bool) returns (mbr: seq<byte>)
    requires Started(job, d) && Returns(job, 1) && Sectors(job.size, job.ss) >= 6
    requires |d| >= MBR_BYTES && CheckMbr(d[..MBR_BYTES], Sectors(job.size, job.ss), skipBpb) == MbrOk(job.mbr)
    requires !Mimicry(job)
    ensures AllFit(FixWrites(job), |d|) && |mbr| == MBR_BYTES
    ensures var r, ss, back := ApplyAll(d, FixWrites(job)), job.g.sectorSize, BackJob(job, mbr);
            && Device(r, ss) && Sectors(|r|, ss) >= 6
            && CheckMbr(r[..MBR_BYTES], Sectors(|r|, ss), skipBpb) == MbrOk(mbr)
            && SearchDevice(job.crc, r, ss, skipBpb) == Foreign(back.g, back.source)
            && Started(back, r) && AllFit(FixWrites(back), |r|)
            && var g, count := CopyAsRead(back, 1), NewCount(CopyAsRead(job, 1), ss, job.size);
               && ReadGpt(job.crc, ApplyAll(r, FixWrites(back)), 1, ss) == Found(g)
               && g.header.diskGuid == job.g.header.diskGuid
               && job.g.used <= count && ENTRY_BYTES * count <= |job.g.table|
               && g.table == job.g.table[..ENTRY_BYTES * count]
  {
    hide ReadGpt, FixWrites, ApplyAll, Rebuildable, Convertible, TablePlaced, Gpt.Valid, NewHeader, NewTable,
         NewCount, AllFit, SearchDevice, CheckMbr, Mimicry;
    PrimaryAfterRun(job, d);
    var r := ApplyAll(d, FixWrites(job));
    mbr := ToolAfterRun(job, d, skipBpb);
    CopyStartsBack(job, r, mbr);
    PrimaryAfterRun(BackJob(job, mbr), r);
    CopyHeaderFields(job, 1);
    CopyHeaderFields(BackJob(job, mbr), 1);
    RoundTrip(job, 1);
  }
}
