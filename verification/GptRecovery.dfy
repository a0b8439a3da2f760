/** Running the tool again: what main's own search finds after a crash, and after a device changes back. */
module GptRecovery {
  import opened Bytes
  import opened GptFormat
  import opened GptCheck
  import opened GptAdjust
  import opened GptFix
  import opened GptMain
  import opened GptRoundTrip
  import opened GptStray

  // ----- Bytes after a run of writes -----

  lemma ApplyAllLast(d: Disk, ws: seq<Write>)
    requires AllFit(ws, |d|) && |ws| > 0
    ensures ApplyAll(d, ws) == Apply(ApplyAll(d, ws[..|ws| - 1]), ws[|ws| - 1])
  {
  }

  lemma CoveredByLast(d: Disk, ws: seq<Write>, w: Write, lo: nat, hi: nat)
    requires AllFit(ws, |d|) && |ws| > 0 && ws[|ws| - 1] == w && w.offset <= lo <= hi <= w.EndOffset() <= |d|
    ensures ApplyAll(d, ws)[lo..hi] == w.data[lo - w.offset..hi - w.offset]
  {
    hide ApplyAll, Apply, AllFit;
    ApplyAllLast(d, ws);
    SliceOfSlice(ApplyAll(d, ws), w.offset, w.EndOffset(), lo - w.offset, hi - w.offset);
  }

  /** The last write that covers a range decides it. */
  lemma LastCover(d: Disk, ws: seq<Write>, i: nat, lo: nat, hi: nat)
    requires AllFit(ws, |d|) && i < |ws| && ws[i].offset <= lo <= hi <= ws[i].EndOffset()
    requires AllAvoid(ws[i + 1..], lo, hi)
    ensures hi <= |d| && ApplyAll(d, ws)[lo..hi] == ws[i].data[lo - ws[i].offset..hi - ws[i].offset]
  {
    hide AllAvoid, ApplyAll, AllFit;
    SplitRun(d, ws, i + 1);
    CoveredByLast(d, ws[..i + 1], ws[i], lo, hi);
    ApplyAllKeeps(ApplyAll(d, ws[..i + 1]), ws[i + 1..], lo, hi);
  }

  lemma SplitRun(d: Disk, ws: seq<Write>, i: nat)
    requires AllFit(ws, |d|) && i <= |ws|
    ensures AllFit(ws[..i], |d|) && AllFit(ws[i..], |d|)
    ensures ApplyAll(d, ws) == ApplyAll(ApplyAll(d, ws[..i]), ws[i..])
    ensures i > 0 ==> ws[i - 1].Fits(|d|)
  {
    hide ApplyAll;
    assert ws == ws[..i] + ws[i..];
    FitParts(ws[..i], ws[i..], |d|);
    ApplyAllConcat(d, ws[..i], ws[i..]);
  }

  lemma PrefixFits(ws: seq<Write>, k: nat, size: nat)
    requires AllFit(ws, size) && k <= |ws|
    ensures AllFit(ws[..k], size)
  {
  }

  lemma AvoidConcat(a: seq<Write>, b: seq<Write>, lo: int, hi: int)
    requires AllAvoid(a, lo, hi) && AllAvoid(b, lo, hi)
    ensures AllAvoid(a + b, lo, hi)
  {
  }

  /** The writes of the primary copy, one by one. */
  lemma PrimaryWrites(job: Job)
    requires job.Valid()
    ensures var p, n := CreateWrites(job, 1), NewCopy(job, 1);
            && (job.ss == 4096 ==> |p| == 3 && p[0] == Write(0, job.mbr + Zeros(3584)) && p[1] == Write(8192, n.entries)
                                   && p[2].offset == 4096 && |p[2].data| == 4096)
            && (job.ss == 512 ==> |p| == 5 && p[0] == Write(0, job.mbr) && p[1] == Write(512, Zeros(512))
                                  && p[2] == Write(4096, Zeros(4096)) && p[3] == Write(1024, n.entries)
                                  && p[4].offset == 512 && |p[4].data| == 512)
  {
    hide Gpt.Valid, Rebuildable, Convertible, TablePlaced, NewCopy, EncodeHeader, DataLo, DataHi, NewCount,
         RequiredBytes;
    RebuildableNumbers(job.g, job.size);
    CopyPlacement(job, 1);
  }

  lemma BackupWrites(job: Job)
    requires job.Valid()
    ensures var last := Sectors(job.size, job.ss) - 1;
            last >= 5 && job.size - job.ss == Span(last, job.ss) && job.size >= 6 * BIG
    ensures var last := Sectors(job.size, job.ss) - 1; var q, n := CreateWrites(job, last), NewCopy(job, last);
            && |q| == 3 && q[0] == Write(job.size - BIG, Zeros(BIG)) && q[1].data == n.entries
            && q[1].EndOffset() == job.size - job.ss == q[2].offset
            && q[2].data == EncodeHeader(n.header) + Zeros(job.ss - HEADER_BYTES)
  {
    hide Gpt.Valid, Rebuildable, Convertible, TablePlaced, NewCopy, EncodeHeader, DataLo, DataHi, NewCount,
         RequiredBytes;
    RebuildableNumbers(job.g, job.size);
    CopyPlacement(job, Sectors(job.size, job.ss) - 1);
  }

  /** Until the primary copy is complete, its header sector is as it was, or wiped. */
  lemma PrimaryOldOrWiped(job: Job, d: Disk, k: nat)
    requires job.Valid() && |d| == job.size && AllFit(CreateWrites(job, 1), |d|) && k < |CreateWrites(job, 1)|
    ensures 2 * job.ss <= |d|
    ensures var p := CreateWrites(job, 1);
            AllAvoid(p[..k], job.ss, 2 * job.ss) || AfterCrash(d, p, k)[job.ss] == 0
  {
    hide Gpt.Valid, Rebuildable, Convertible, TablePlaced, CreateWrites, NewCopy, ApplyAll;
    RebuildableNumbers(job.g, job.size);
    PrimaryWrites(job);
    var p := CreateWrites(job, 1)[..k];
    if job.ss == 512 && k >= 2 {
      LastCover(d, p, 1, 512, 1024);
      assert ApplyAll(d, p)[512] == ApplyAll(d, p)[512..1024][0];
    }
  }

  lemma BackupOldOrWiped(job: Job, d: Disk, k: nat)
    requires job.Valid() && |d| == job.size
    requires var q := CreateWrites(job, Sectors(job.size, job.ss) - 1); AllFit(q, |d|) && k < |q|
    ensures 0 <= job.size - job.ss < |d|
    ensures var q := CreateWrites(job, Sectors(job.size, job.ss) - 1);
            AllAvoid(q[..k], job.size - job.ss, job.size) || AfterCrash(d, q, k)[job.size - job.ss] == 0
  {
    hide Gpt.Valid, Rebuildable, Convertible, TablePlaced, CreateWrites, NewCopy, ApplyAll, EncodeHeader;
    RebuildableNumbers(job.g, job.size);
    BackupWrites(job);
    var q := CreateWrites(job, Sectors(job.size, job.ss) - 1)[..k];
    if k >= 1 {
      var lo := job.size - job.ss;
      LastCover(d, q, 0, lo, job.size);
      assert ApplyAll(d, q)[lo] == ApplyAll(d, q)[lo..job.size][0];
    }
  }

  // ----- The two header positions of the new sector size, during a run -----

  /** The primary copy is not complete after k writes. */
  ghost predicate PrimaryOpen(job: Job, k: nat)
    requires job.Valid()
  {
    k < if job.source == 1 then |FixWrites(job)| else |CreateWrites(job, job.FirstOffset())|
  }

  lemma PrimaryDuringRun(job: Job, d: Disk, k: nat)
    requires job.Valid() && |d| == job.size && AllFit(FixWrites(job), |d|)
    requires k <= |FixWrites(job)| && PrimaryOpen(job, k)
    ensures 2 * job.ss <= |d|
    ensures AllAvoid(FixWrites(job)[..k], job.ss, 2 * job.ss) || AfterCrash(d, FixWrites(job), k)[job.ss] == 0
  {
    hide Gpt.Valid, Rebuildable, Convertible, TablePlaced, CreateWrites, ApplyAll, AfterCrash, AllFit, AllWithin,
         AllAvoid, DataLo, DataHi;
    RebuildableNumbers(job.g, job.size);
    FixWritesFit(job);
    var a, b := CreateWrites(job, job.FirstOffset()), CreateWrites(job, job.SecondOffset());
    if job.source != 1 {
      assert (a + b)[..k] == a[..k];
      CrashInFirst(d, a, b, k);
      PrimaryOldOrWiped(job, d, k);
    } else {
      DataOnBigGrid(job);
      BackupAboveData(job);
      var j := if k <= |a| then k else |a|;
      WithinAvoids(a, j, DataHi(job.g), job.size, job.ss, 2 * job.ss);
      if k < |a| {
        assert (a + b)[..k] == a[..j];
      } else {
        assert a[..j] == a && (a + b)[..k] == a + b[..k - |a|];
        CrashInSecond(d, a, b, k);
        PrimaryOldOrWiped(job, ApplyAll(d, a), k - |a|);
        if AllAvoid(b[..k - |a|], job.ss, 2 * job.ss) {
          AvoidConcat(a, b[..k - |a|], job.ss, 2 * job.ss);
        }
      }
    }
  }

  /** While the first copy is being written, the backup header sector is as it was, or wiped. */
  lemma BackupDuringFirst(job: Job, d: Disk, k: nat)
    requires job.Valid() && |d| == job.size && AllFit(FixWrites(job), |d|)
    requires k < |CreateWrites(job, job.FirstOffset())|
    ensures 0 <= job.size - job.ss < |d|
    ensures || AllAvoid(FixWrites(job)[..k], job.size - job.ss, job.size)
            || AfterCrash(d, FixWrites(job), k)[job.size - job.ss] == 0
  {
    hide Gpt.Valid, Rebuildable, Convertible, TablePlaced, CreateWrites, ApplyAll, AfterCrash, AllFit, AllWithin,
         AllAvoid, DataLo, DataHi;
    RebuildableNumbers(job.g, job.size);
    FixWritesFit(job);
    var a, b := CreateWrites(job, job.FirstOffset()), CreateWrites(job, job.SecondOffset());
    assert (a + b)[..k] == a[..k];
    CrashInFirst(d, a, b, k);
    if job.source == 1 {
      BackupOldOrWiped(job, d, k);
    } else {
      DataOnBigGrid(job);
      PrimaryBelowData(job);
      WithinAvoids(a, k, 0, DataLo(job.g), job.size - job.ss, job.size);
    }
  }

  /** A header of the new sector size that was at `off` before the run is still there after k writes, and matches the
      bytes that are then in the place of its table. */
  ghost predicate Revived(job: Job, d: Disk, k: nat, off: nat)
    requires job.Valid() && |d| == job.size && Device(d, job.ss) && off < Sectors(job.size, job.ss)
    requires AllFit(FixWrites(job), |d|) && k <= |FixWrites(job)|
  {
    && AllAvoid(FixWrites(job)[..k], Span(off, job.ss), Span(off, job.ss) + job.ss)
    && Matches(job.crc, AfterCrash(d, FixWrites(job), k), HeaderAt(d, off, job.ss), off, job.ss)
  }

  /** What the search makes of a position that has not been given its new header yet. */
  lemma PositionRead(job: Job, d: Disk, k: nat, off: nat)
    requires job.Valid() && |d| == job.size && Device(d, job.ss) && off < Sectors(job.size, job.ss)
    requires AllFit(FixWrites(job), |d|) && k <= |FixWrites(job)|
    requires (off == 1 || off >= 5) && Sectors(job.size, job.ss) >= 6
    requires 0 <= Span(off, job.ss) < |d| && ReadGpt(job.crc, d, off, job.ss).Missing?
    requires || AllAvoid(FixWrites(job)[..k], Span(off, job.ss), Span(off, job.ss) + job.ss)
             || AfterCrash(d, FixWrites(job), k)[Span(off, job.ss)] == 0
    ensures var r := AfterCrash(d, FixWrites(job), k);
            ReadGpt(job.crc, r, off, job.ss) == if Revived(job, d, k, off)
                                                then StaleTable(job.crc, r, HeaderAt(d, off, job.ss), off, job.ss)
                                                else Missing
  {
    hide Job.Valid, FixWrites, ApplyAll, AllFit, AllAvoid, ReadGpt, Matches, StaleTable, ParseHeader, Span, Sectors;
    var r, lo := AfterCrash(d, FixWrites(job), k), Span(off, job.ss);
    if AllAvoid(FixWrites(job)[..k], lo, lo + job.ss) {
      SectorInside(d, off, job.ss);
      PrefixFits(FixWrites(job), k, |d|);
      ApplyAllKeeps(d, FixWrites(job)[..k], lo, lo + job.ss);
      assert SectorAt(r, off, job.ss) == SectorAt(d, off, job.ss);
      StaleRead(job.crc, d, r, off, job.ss);
    } else {
      BlankSectorNoTable(job.crc, r, off, job.ss);
    }
  }

  // ----- The primary position of the old sector size, while the primary copy is written first -----

  /** What a table of 512-byte sectors, with the wiped bytes behind it, puts in the primary sector of 4096 bytes. */
  function Spilled(entries: seq<byte>): (s: seq<byte>)
    ensures |s| == 4096
  {
    (entries + Zeros(7168))[3072..7168]
  }

  /** An entry of the new table looks like an old header when only the new header is still to be written. */
  ghost predicate Mimics(job: Job, k: nat)
    requires job.Valid()
  {
    job.ss == 512 && job.source != 1 && k == 4 && MimicAt(job, PRIMARY_INDEX)
  }

  lemma TableOverWipe(d: Disk, ws: seq<Write>, entries: seq<byte>)
    requires |ws| == 4 && AllFit(ws, |d|) && |d| >= 8192
    requires ws[2] == Write(4096, Zeros(4096)) && ws[3] == Write(1024, entries)
    ensures ApplyAll(d, ws)[4096..8192] == Spilled(entries)
  {
    hide ApplyAll;
    var three := ws[..3];
    FitParts(three, [ws[3]], |d|) by {
      assert ws == three + [ws[3]];
    }
    ApplyAllLast(d, ws);
    assert AllAvoid(three[3..], 4096, 8192);
    LastCover(d, three, 2, 4096, 8192);
    var r, r' := ApplyAll(d, three), ApplyAll(d, ws);
    Overlay(r, r', entries);
  }

  lemma Overlay(r: Disk, r': Disk, entries: seq<byte>)
    requires |r| >= 8192 && 1024 + |entries| <= |r| && r' == Apply(r, Write(1024, entries))
    requires r[4096..8192] == Zeros(4096)
    ensures r'[4096..8192] == Spilled(entries)
  {
    forall i | 0 <= i < 4096 ensures r'[4096..8192][i] == Spilled(entries)[i] {
      assert r[4096..8192][i] == r[4096 + i] == 0;
    }
  }

  /** The old primary position depends on bytes from its own sector on only. */
  lemma PrimaryFrame(crc: Checksum, d: Disk, d': Disk, ss: nat)
    requires Device(d, ss) && |d'| == |d| && Sectors(|d|, ss) >= 6 && d'[ss..] == d[ss..]
    ensures ReadGpt(crc, d', 1, ss) == ReadGpt(crc, d, 1, ss)
  {
    hide ParseHeader, ReadTable, CheckHeader;
    assert d[ss..|d|] == d[ss..] && d'[ss..|d|] == d'[ss..];
    SliceOfSlice(d, ss, |d|, 0, ss);
    SliceOfSlice(d', ss, |d|, 0, ss);
    assert SectorAt(d', 1, ss) == SectorAt(d, 1, ss);
    var h := HeaderAt(d, 1, ss);
    if CheckHeader(crc, h, 1, ss, Sectors(|d|, ss)).Accepted? {
      AcceptedFacts(crc, h, 1, ss, Sectors(|d|, ss));
      TableFrame(crc, d, d', h, ss);
    }
  }

  lemma TableFrame(crc: Checksum, d: Disk, d': Disk, h: Header, ss: nat)
    requires SectorSize(ss) && |d'| == |d| >= ss && d'[ss..] == d[ss..]
    requires h.WellFormed() && h.entrySize == ENTRY_BYTES && h.entryLba == 2
    ensures ReadTable(crc, d', h, ss) == ReadTable(crc, d, h, ss)
  {
    hide JudgeTable, RoundUp;
    var at, n := TableOffset(h, ss), h.TableBytes();
    assert at == 2 * ss;
    if at + RoundUp(n, ss) <= |d| {
      assert d[ss..|d|] == d[ss..] && d'[ss..|d|] == d'[ss..];
      SliceOfSlice(d, ss, |d|, ss, ss + n);
      SliceOfSlice(d', ss, |d|, ss, ss + n);
    }
  }

  /** The writes of the primary copy for 4096-byte sectors wipe the old primary header at once. */
  lemma OldPrimaryWiped(job: Job, d: Disk, k: nat)
    requires job.Valid() && |d| == job.size && AllFit(CreateWrites(job, 1), |d|) && job.ss == 4096
    requires 1 <= k < |CreateWrites(job, 1)|
    ensures |d| > 512 && AfterCrash(d, CreateWrites(job, 1), k)[512] == 0
  {
    hide Gpt.Valid, Rebuildable, Convertible, TablePlaced, CreateWrites, NewCopy, ApplyAll;
    RebuildableNumbers(job.g, job.size);
    PrimaryWrites(job);
    var p := CreateWrites(job, 1)[..k];
    LastCover(d, p, 0, 512, 1024);
    assert ApplyAll(d, p)[512] == ApplyAll(d, p)[512..1024][0] == p[0].data[512..1024][0] == 0;
  }

  /** Those for 512-byte sectors leave it alone, then wipe it, then put the table over it. */
  lemma OldPrimaryUntouched(job: Job, d: Disk, k: nat)
    requires job.Valid() && |d| == job.size && AllFit(CreateWrites(job, 1), |d|) && job.ss == 512 && k <= 2
    ensures |CreateWrites(job, 1)| == 5 && |d| >= 4096 && AfterCrash(d, CreateWrites(job, 1), k)[4096..] == d[4096..]
  {
    hide Gpt.Valid, Rebuildable, Convertible, TablePlaced, CreateWrites, NewCopy, ApplyAll;
    RebuildableNumbers(job.g, job.size);
    PrimaryWrites(job);
    var p := CreateWrites(job, 1)[..k];
    ApplyAllKeeps(d, p, 4096, |d|);
    assert d[4096..|d|] == d[4096..];
  }

  lemma OldPrimaryOverwritten(job: Job, d: Disk)
    requires job.Valid() && |d| == job.size && AllFit(CreateWrites(job, 1), |d|) && job.ss == 512
    ensures |CreateWrites(job, 1)| == 5 && |d| >= 8192
    ensures AfterCrash(d, CreateWrites(job, 1), 3)[4096] == 0
    ensures AfterCrash(d, CreateWrites(job, 1), 4)[4096..8192] == Spilled(NewCopy(job, 1).entries)
  {
    hide Gpt.Valid, Rebuildable, Convertible, TablePlaced, CreateWrites, NewCopy, ApplyAll, Spilled;
    RebuildableNumbers(job.g, job.size);
    PrimaryWrites(job);
    var p := CreateWrites(job, 1);
    LastCover(d, p[..3], 2, 4096, 8192);
    assert ApplyAll(d, p[..3])[4096] == ApplyAll(d, p[..3])[4096..8192][0];
    TableOverWipe(d, p[..4], NewCopy(job, 1).entries);
  }

  /** The primary sector of 4096 bytes when it holds part of a table of 512-byte sectors. */
  lemma SpilledRead(job: Job, r: Disk)
    requires CopyOf(job, 1) && job.ss == 512 && |r| == job.size && Device(r, 4096) && Sectors(|r|, 4096) >= 6
    requires r[4096..8192] == Spilled(NewCopy(job, 1).entries)
    ensures ReadGpt(job.crc, r, 1, 4096) == if MimicAt(job, PRIMARY_INDEX) then Exit(EXIT_UNSUPPORTED) else Missing
  {
    hide Job.Valid, NewCopy, ReadGpt, MimicAt, Unsupported, Used, Start, End, Spilled;
    var entries, s := NewCopy(job, 1).entries, SectorAt(r, 1, 4096);
    WholeSectorsOfEntries(job, 1);
    SpilledBegins(entries);
    if |entries| > 3072 {
      var e := PaddedEntry(job, 1, PRIMARY_INDEX);
      EntryRead(job.crc, r, 1, e);
    } else {
      FewEntries(job, 1, PRIMARY_INDEX);
      assert r[4096] == s[0];
      BlankSectorNoTable(job.crc, r, 1, 4096);
    }
  }

  lemma SpilledBegins(entries: seq<byte>)
    requires |entries| % 512 == 0
    ensures |entries| > 3072 ==> |entries| >= 3200 && Spilled(entries)[..ENTRY_BYTES] == entries[3072..3200]
    ensures |entries| <= 3072 ==> Spilled(entries)[0] == 0
  {
    var padded := entries + Zeros(7168);
    SliceOfSlice(padded, 3072, 7168, 0, ENTRY_BYTES);
    if |entries| > 3072 {
      assert padded[3072..3200] == entries[3072..3200];
    }
  }

  lemma WholeSectorsOfEntries(job: Job, off: nat)
    requires CopyOf(job, off) && job.ss == 512
    ensures |NewCopy(job, off).entries| % 512 == 0
    ensures BackupIndex(job) == |NewCopy(job, off).entries| / ENTRY_BYTES - 28
  {
    hide Gpt.Valid, Rebuildable, Convertible, TablePlaced, NewCount, NewTable, NewHeader;
    CountFits(job.g, job.ss, job.size);
  }

  lemma FewEntries(job: Job, off: nat, i: nat)
    requires CopyOf(job, off) && |NewCopy(job, off).entries| <= ENTRY_BYTES * i
    ensures !MimicAt(job, i)
  {
    hide Gpt.Valid, Rebuildable, Convertible, TablePlaced, NewCount, NewTable, NewHeader, RequiredBytes, Unsupported;
    CountFits(job.g, job.ss, job.size);
  }

  /** While the primary copy is written first, the old primary position stays empty, unless an entry mimics a
      header. */
  lemma OldPrimaryRead(job: Job, d: Disk, k: nat)
    requires Started(job, d) && AllFit(FixWrites(job), |d|) && job.source != 1
    requires k < |CreateWrites(job, job.FirstOffset())| && k <= |FixWrites(job)|
    requires ReadGpt(job.crc, d, 1, job.g.sectorSize).Missing?
    ensures ReadGpt(job.crc, AfterCrash(d, FixWrites(job), k), 1, job.g.sectorSize)
         == if Mimics(job, k) then Exit(EXIT_UNSUPPORTED) else Missing
  {
    hide Gpt.Valid, Rebuildable, Convertible, TablePlaced, CreateWrites, NewCopy, ApplyAll, ReadGpt, Spilled,
         AfterCrash, MimicAt;
    RebuildableNumbers(job.g, job.size);
    FixWritesFit(job);
    var a, b := CreateWrites(job, job.FirstOffset()), CreateWrites(job, job.SecondOffset());
    CrashInFirst(d, a, b, k);
    var r := AfterCrash(d, a, k);
    if job.ss == 4096 {
      if k == 0 {
        CrashAtOnce(d, a);
      } else {
        OldPrimaryWiped(job, d, k);
        BlankSectorNoTable(job.crc, r, 1, 512);
      }
    } else if k <= 2 {
      OldPrimaryUntouched(job, d, k);
      PrimaryFrame(job.crc, d, r, 4096);
    } else {
      OldPrimaryOverwritten(job, d);
      if k == 3 {
        BlankSectorNoTable(job.crc, r, 1, 4096);
      } else {
        assert k == 4;
        SpilledRead(job, r);
      }
    }
  }

  lemma CrashAtOnce(d: Disk, ws: seq<Write>)
    requires AllFit(ws, |d|)
    ensures AfterCrash(d, ws, 0) == d
  {
    assert ws[..0] == [];
  }

  // ----- Recovery -----

  /** What a run of the tool should find after k writes: the table it started from, until the first new copy is
      complete; then that copy, until the primary one is complete. */
  ghost function Expected(job: Job, k: nat): Search
    requires job.Valid()
  {
    if k < |CreateWrites(job, job.FirstOffset())| then Foreign(job.g, job.source)
    else if k < |FixWrites(job)| then Current(CopyAsRead(job, job.FirstOffset()))
    else Current(CopyAsRead(job, 1))
  }

  /** A stale header of the new sector size has come to match what lies in the place of its table, at a position that
      the search visits before it gets to the expected table; or an entry looks like a header itself. */
  ghost predicate Obstructed(job: Job, d: Disk, k: nat)
    requires job.Valid() && |d| == job.size && Device(d, job.ss) && Sectors(job.size, job.ss) >= 6
    requires AllFit(FixWrites(job), |d|) && k <= |FixWrites(job)|
  {
    || (PrimaryOpen(job, k) && Revived(job, d, k, 1))
    || (k < |CreateWrites(job, job.FirstOffset())| && Revived(job, d, k, Sectors(job.size, job.ss) - 1))
    || Mimics(job, k)
  }

  function AsSearch(r: Lookup): Search
    requires r.Found? || r.Exit?
  {
    if r.Found? then Current(r.gpt) else SearchExit(r.code)
  }

  ghost function StaleAt(job: Job, d: Disk, k: nat, off: nat): Search
    requires job.Valid() && |d| == job.size && Device(d, job.ss) && off < Sectors(job.size, job.ss)
    requires AllFit(FixWrites(job), |d|) && k <= |FixWrites(job)| && Revived(job, d, k, off)
  {
    AsSearch(StaleTable(job.crc, AfterCrash(d, FixWrites(job), k), HeaderAt(d, off, job.ss), off, job.ss))
  }

  /** What the search gives in each case: a stale table, primary before backup; the exit for an unsupported entry
      size; or the expected table. */
  ghost function Recovered(job: Job, d: Disk, k: nat): Search
    requires job.Valid() && |d| == job.size && Device(d, job.ss) && Sectors(job.size, job.ss) >= 6
    requires AllFit(FixWrites(job), |d|) && k <= |FixWrites(job)|
  {
    var last := Sectors(job.size, job.ss) - 1;
    if PrimaryOpen(job, k) && Revived(job, d, k, 1) then StaleAt(job, d, k, 1)
    else if k < |CreateWrites(job, job.FirstOffset())| && Revived(job, d, k, last) then StaleAt(job, d, k, last)
    else if Mimics(job, k) then SearchExit(EXIT_UNSUPPORTED)
    else Expected(job, k)
  }

  lemma RunSizes(job: Job)
    requires job.Valid()
    ensures SectorSize(job.ss) && Sectors(job.size, job.ss) >= 6 && job.size % BIG == 0
    ensures job.g.sectorSize == OtherSize(job.ss) && job.ss == OtherSize(job.g.sectorSize)
    ensures SectorSize(job.g.sectorSize) && Sectors(job.size, job.g.sectorSize) >= 6 && job.size >= 6 * BIG
    ensures Span(1, job.ss) == job.ss && Span(Sectors(job.size, job.ss) - 1, job.ss) == job.size - job.ss
    ensures |FixWrites(job)| == |CreateWrites(job, job.FirstOffset())| + |CreateWrites(job, job.SecondOffset())|
    ensures |CreateWrites(job, job.SecondOffset())| > 0
  {
    hide Rebuildable, Convertible, TablePlaced, NewCopy;
    RebuildableNumbers(job.g, job.size);
  }

  /** The search came to the other sector size because both positions of its own were empty. */
  lemma ForeignMeansMissing(crc: Checksum, d: Disk, ss: nat, g: Gpt, source: nat)
    requires Device(d, ss) && Sectors(|d|, ss) >= 6 && Find(crc, d, ss) == Foreign(g, source)
    ensures ReadGpt(crc, d, 1, ss).Missing? && ReadGpt(crc, d, Sectors(|d|, ss) - 1, ss).Missing?
    ensures Device(d, OtherSize(ss)) && (source != 1 ==> ReadGpt(crc, d, 1, OtherSize(ss)).Missing?)
  {
    hide ReadGpt, Sectors, Aligned;
    OtherDevice(d, ss);
  }

  /** Before the first copy is complete. */
  lemma RecoveryInFirst(job: Job, d: Disk, k: nat)
    requires Started(job, d) && AllFit(FixWrites(job), |d|) && Sectors(job.size, job.ss) >= 6
    requires Find(job.crc, d, job.ss) == Foreign(job.g, job.source)
    requires k < |CreateWrites(job, job.FirstOffset())| && k <= |FixWrites(job)|
    ensures Find(job.crc, AfterCrash(d, FixWrites(job), k), job.ss) == Recovered(job, d, k)
  {
    hide Job.Valid, CreateWrites, FixWrites, ApplyAll, AfterCrash, ReadGpt, Revived, Mimics, AllFit, AllAvoid,
         Sectors, Span, CopyAsRead, StaleTable, HeaderAt;
    RunSizes(job);
    SourcePosition(job);
    var r, last := AfterCrash(d, FixWrites(job), k), Sectors(job.size, job.ss) - 1;
    GoodTableAtEveryMoment(job, d, k);
    PrimaryDuringRun(job, d, k);
    BackupDuringFirst(job, d, k);
    ForeignMeansMissing(job.crc, d, job.ss, job.g, job.source);
    PositionRead(job, d, k, 1);
    PositionRead(job, d, k, last);
    if job.source != 1 {
      OldPrimaryRead(job, d, k);
    } else {
      NoMimicry(job, k);
    }
    FindUnfold(job.crc, r, job.ss);
  }

  /** The search, position by position. */
  lemma FindUnfold(crc: Checksum, r: Disk, ss: nat)
    requires Device(r, ss) && Sectors(|r|, ss) >= 6 && |r| % BIG == 0 && Device(r, OtherSize(ss))
    requires Sectors(|r|, OtherSize(ss)) >= 6
    ensures var last, other := Sectors(|r|, ss) - 1, Sectors(|r|, OtherSize(ss)) - 1;
            var p, q := ReadGpt(crc, r, 1, ss), ReadGpt(crc, r, last, ss);
            var p', q' := ReadGpt(crc, r, 1, OtherSize(ss)), ReadGpt(crc, r, other, OtherSize(ss));
            && (p.Found? || p.Exit? ==> Find(crc, r, ss) == AsSearch(p))
            && (p.Missing? && (q.Found? || q.Exit?) ==> Find(crc, r, ss) == AsSearch(q))
            && (p.Missing? && q.Missing? && p'.Found? ==> Find(crc, r, ss) == Foreign(p'.gpt, 1))
            && (p.Missing? && q.Missing? && p'.Exit? ==> Find(crc, r, ss) == SearchExit(p'.code))
            && (p.Missing? && q.Missing? && p'.Missing? && q'.Found? ==> Find(crc, r, ss) == Foreign(q'.gpt, other))
            && (p.Missing? && q.Missing? && p'.Missing? && q'.Exit? ==> Find(crc, r, ss) == SearchExit(q'.code))
  {
    hide ReadGpt, Sectors, Aligned;
  }

  lemma NoMimicry(job: Job, k: nat)
    requires job.Valid() && (job.source == 1 || k >= |CreateWrites(job, job.FirstOffset())|)
    ensures !Mimics(job, k)
  {
    hide Gpt.Valid, Rebuildable, Convertible, TablePlaced, CreateWrites;
    PrimaryWrites(job);
  }

  /** While the second copy is written. */
  lemma RecoveryInSecond(job: Job, d: Disk, k: nat)
    requires Started(job, d) && AllFit(FixWrites(job), |d|) && Sectors(job.size, job.ss) >= 6
    requires Find(job.crc, d, job.ss) == Foreign(job.g, job.source)
    requires |CreateWrites(job, job.FirstOffset())| <= k < |FixWrites(job)|
    ensures Find(job.crc, AfterCrash(d, FixWrites(job), k), job.ss) == Recovered(job, d, k)
  {
    hide Job.Valid, CreateWrites, FixWrites, ApplyAll, AfterCrash, ReadGpt, Revived, Mimics, AllFit, AllAvoid,
         Sectors, Span, CopyAsRead, StaleTable, HeaderAt, Find;
    RunSizes(job);
    SourcePosition(job);
    var r := AfterCrash(d, FixWrites(job), k);
    GoodTableAtEveryMoment(job, d, k);
    NoMimicry(job, k);
    if job.source == 1 {
      PrimaryDuringRun(job, d, k);
      ForeignMeansMissing(job.crc, d, job.ss, job.g, job.source);
      PositionRead(job, d, k, 1);
      }
    FindUnfold(job.crc, r, job.ss);
  }

  /** After any prefix of the writes, main's own search gives exactly this. */
  lemma RecoveryOutcome(job: Job, d: Disk, k: nat)
    requires Started(job, d) && AllFit(FixWrites(job), |d|) && k <= |FixWrites(job)| && Sectors(job.size, job.ss) >= 6
    requires Find(job.crc, d, job.ss) == Foreign(job.g, job.source)
    ensures Find(job.crc, AfterCrash(d, FixWrites(job), k), job.ss) == Recovered(job, d, k)
  {
    hide Job.Valid, CreateWrites, FixWrites, ApplyAll, ReadGpt, Revived, Mimics, AllFit, CopyAsRead, Find;
    RunSizes(job);
    if k < |CreateWrites(job, job.FirstOffset())| {
      RecoveryInFirst(job, d, k);
    } else if k < |FixWrites(job)| {
      RecoveryInSecond(job, d, k);
    } else {
      NoMimicry(job, k);
      WholeRun(d, FixWrites(job));
      PrimaryAfterRun(job, d);
      CurrentPrimary(job.crc, ApplyAll(d, FixWrites(job)), job.ss, CopyAsRead(job, 1));
    }
  }

  lemma BackupEntryLba(job: Job)
    requires job.Valid()
    ensures CopyAsRead(job, Sectors(job.size, job.ss) - 1).header.entryLba != 2
  {
    hide Gpt.Valid, Rebuildable, Convertible, TablePlaced, NewTable, NewCount, RequiredBytes, DataLo, DataHi;
    var last := Sectors(job.size, job.ss) - 1;
    RebuildableNumbers(job.g, job.size);
    CopyPlacement(job, last);
    DataOnBigGrid(job);
  }

  lemma StaleEntryLba(job: Job, d: Disk, k: nat)
    requires job.Valid() && |d| == job.size && Device(d, job.ss) && Sectors(job.size, job.ss) >= 6
    requires AllFit(FixWrites(job), |d|) && k <= |FixWrites(job)| && Revived(job, d, k, 1)
    ensures var t := StaleTable(job.crc, AfterCrash(d, FixWrites(job), k), HeaderAt(d, 1, job.ss), 1, job.ss);
            (t.Found? ==> t.gpt.header.entryLba == 2) && (t.Found? || t.Exit?)
  {
    hide Job.Valid, FixWrites, ApplyAll, AllFit, AllAvoid, HeaderAt, CheckHeader, EntriesUsable, UsedCount;
    AcceptedFacts(job.crc, HeaderAt(d, 1, job.ss), 1, job.ss, Sectors(job.size, job.ss));
  }

  /** Recovery: it is the expected table if and only if nothing obstructs the search. */
  lemma RecoveryExactly(job: Job, d: Disk, k: nat)
    requires Started(job, d) && AllFit(FixWrites(job), |d|) && k <= |FixWrites(job)| && Sectors(job.size, job.ss) >= 6
    requires Find(job.crc, d, job.ss) == Foreign(job.g, job.source)
    ensures Find(job.crc, AfterCrash(d, FixWrites(job), k), job.ss) == Expected(job, k) <==> !Obstructed(job, d, k)
  {
    hide Job.Valid, CreateWrites, FixWrites, ApplyAll, ReadGpt, Revived, Mimics, AllFit, CopyAsRead, Find, StaleTable,
         HeaderAt, AfterCrash;
    RunSizes(job);
    RecoveryOutcome(job, d, k);
    BackupEntryLba(job);
    if Revived(job, d, k, 1) {
      StaleEntryLba(job, d, k);
    }
    if Mimics(job, k) {
      if k >= |CreateWrites(job, job.FirstOffset())| {
        NoMimicry(job, k);
      }
    }
  }

  lemma WholeRun(d: Disk, ws: seq<Write>)
    requires AllFit(ws, |d|)
    ensures AfterCrash(d, ws, |ws|) == ApplyAll(d, ws)
  {
    assert ws[..|ws|] == ws;
  }

  lemma CurrentPrimary(crc: Checksum, r: Disk, ss: nat, g: Gpt)
    requires Device(r, ss) && Sectors(|r|, ss) >= 6 && ReadGpt(crc, r, 1, ss) == Found(g)
    ensures Find(crc, r, ss) == Current(g)
  {
    hide ReadGpt;
  }

  /** No header of sector size ss, with or without a table, at the two places where the search looks. */
  predicate NoHeaders(crc: Checksum, d: Disk, ss: nat)
    requires Device(d, ss) && Sectors(|d|, ss) >= 6
  {
    && CheckHeader(crc, HeaderAt(d, 1, ss), 1, ss, Sectors(|d|, ss)).Rejected?
    && CheckHeader(crc, HeaderAt(d, Sectors(|d|, ss) - 1, ss), Sectors(|d|, ss) - 1, ss, Sectors(|d|, ss)).Rejected?
  }

  /** A condition that can be checked before the run. */
  lemma RecoveryWithoutStaleHeaders(job: Job, d: Disk, k: nat)
    requires Started(job, d) && AllFit(FixWrites(job), |d|) && k <= |FixWrites(job)| && Sectors(job.size, job.ss) >= 6
    requires Find(job.crc, d, job.ss) == Foreign(job.g, job.source)
    requires NoHeaders(job.crc, d, job.ss) && (job.ss == 4096 || job.source == 1 || !MimicAt(job, PRIMARY_INDEX))
    ensures Find(job.crc, AfterCrash(d, FixWrites(job), k), job.ss) == Expected(job, k)
  {
    hide Job.Valid, CreateWrites, FixWrites, ApplyAll, AfterCrash, ReadGpt, AllFit, AllAvoid, Find, CheckHeader,
         MimicAt, CopyAsRead, Expected, ParseHeader, EntriesUsable, Sectors, Span, SectorAt, TableOffset;
    RunSizes(job);
    RecoveryExactly(job, d, k);
  }

  // ----- The tool as a whole -----

  /** The MBR is the old one or the corrected one. */
  lemma MbrDuringRun(job: Job, d: Disk, k: nat)
    requires job.Valid() && |d| == job.size && AllFit(FixWrites(job), |d|) && k <= |FixWrites(job)|
    ensures |d| >= MBR_BYTES
    ensures var r := AfterCrash(d, FixWrites(job), k); r[..MBR_BYTES] == d[..MBR_BYTES] || r[..MBR_BYTES] == job.mbr
  {
    hide Gpt.Valid, Rebuildable, Convertible, TablePlaced, CreateWrites, ApplyAll, AfterCrash, AllFit, AllWithin,
         AllAvoid, DataLo, DataHi;
    RebuildableNumbers(job.g, job.size);
    FixWritesFit(job);
    DataOnBigGrid(job);
    BackupAboveData(job);
    var a, b := CreateWrites(job, job.FirstOffset()), CreateWrites(job, job.SecondOffset());
    var j := if k <= |a| then k else |a|;
    CrashInFirst(d, a, b, j);
    assert AfterCrash(d, a, |a|) == ApplyAll(d, a) by {
      WholeRun(d, a);
    }
    if k > |a| {
      CrashInSecond(d, a, b, k);
    }
    if job.source == 1 {
      KeepsMbr(d, a, j, DataHi(job.g), job.size);
      if k > |a| {
        MbrInPrimary(job, ApplyAll(d, a), k - |a|);
      }
    } else {
      MbrInPrimary(job, d, j);
      if k > |a| {
        KeepsMbr(ApplyAll(d, a), b, k - |a|, DataHi(job.g), job.size);
      }
    }
  }

  lemma KeepsMbr(d: Disk, ws: seq<Write>, k: nat, lo: int, hi: int)
    requires AllFit(ws, |d|) && k <= |ws| && |d| >= MBR_BYTES && AllWithin(ws, lo, hi) && lo >= MBR_BYTES
    ensures AfterCrash(d, ws, k)[..MBR_BYTES] == d[..MBR_BYTES]
  {
    hide ApplyAll;
    WithinAvoids(ws, k, lo, hi, 0, MBR_BYTES);
    ApplyAllKeeps(d, ws[..k], 0, MBR_BYTES);
  }

  lemma MbrInPrimary(job: Job, d: Disk, k: nat)
    requires job.Valid() && |d| == job.size && AllFit(CreateWrites(job, 1), |d|) && k <= |CreateWrites(job, 1)|
    ensures |d| >= MBR_BYTES
    ensures var r := AfterCrash(d, CreateWrites(job, 1), k);
            r[..MBR_BYTES] == d[..MBR_BYTES] || r[..MBR_BYTES] == job.mbr
  {
    hide Gpt.Valid, Rebuildable, Convertible, TablePlaced, CreateWrites, NewCopy, ApplyAll;
    RebuildableNumbers(job.g, job.size);
    PrimaryWrites(job);
    var p := CreateWrites(job, 1)[..k];
    if k == 0 {
      CrashAtOnce(d, CreateWrites(job, 1));
    } else {
      LastCover(d, p, 0, 0, MBR_BYTES);
    }
  }

  /** Running the tool again after a crash: its MBR check passes, and its search gives exactly the outcome above: the
      expected table if and only if nothing obstructs it. From the old table the whole run can start afresh. */
  lemma ToolRecovers(job: Job, d: Disk, k: nat, skipBpb: bool)
    requires Started(job, d) && AllFit(FixWrites(job), |d|) && k <= |FixWrites(job)| && Sectors(job.size, job.ss) >= 6
    requires |d| >= MBR_BYTES && CheckMbr(d[..MBR_BYTES], Sectors(job.size, job.ss), skipBpb) == MbrOk(job.mbr)
    requires SearchDevice(job.crc, d, job.ss, skipBpb) == Foreign(job.g, job.source)
    ensures var again := SearchDevice(job.crc, AfterCrash(d, FixWrites(job), k), job.ss, skipBpb);
            again == Recovered(job, d, k) && (again == Expected(job, k) <==> !Obstructed(job, d, k))
    ensures k <= |CreateWrites(job, job.FirstOffset())| ==> Started(job, AfterCrash(d, FixWrites(job), k))
  {
    hide Job.Valid, CreateWrites, FixWrites, ApplyAll, ReadGpt, AllFit, Find, CheckMbr, Expected, Obstructed, Recovered;
    MbrDuringRun(job, d, k);
    CheckMbrIdempotent(d[..MBR_BYTES], Sectors(job.size, job.ss), skipBpb);
    RecoveryOutcome(job, d, k);
    RecoveryExactly(job, d, k);
    GoodTableAtEveryMoment(job, d, k);
  }
}
