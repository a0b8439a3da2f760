/** Converting a table from 512-byte to 4096-byte sectors and back. */
module GptRoundTrip {
  import opened Bytes
  import opened GptFormat
  import opened GptCheck
  import opened GptAdjust
  import opened GptFix
  import opened GptMain

  /** A job, and the position of one of its two new copies. */
  ghost predicate CopyOf(job: Job, off: nat) {
    job.Valid() && (off == 1 || off == Sectors(job.size, job.ss) - 1)
  }

  lemma CopyIsValid(job: Job, off: nat)
    requires CopyOf(job, off)
    ensures CopyAsRead(job, off).Valid()
    ensures SamePartitions(job.g, CopyAsRead(job, off))
  {
    hide Job.Valid, JudgeTable, CopyAsRead;
    NewTableJudged(job, off);
    CopyHasSamePartitions(job, off);
  }

  lemma CopyHeaderFields(job: Job, off: nat)
    requires CopyOf(job, off)
    ensures var h, g := CopyAsRead(job, off).header, job.g;
            && h.signature == SIGNATURE && h.revision == REVISION && h.headerSize == g.header.headerSize
            && h.reserved == 0 && h.diskGuid == g.header.diskGuid && h.myLba == off
            && h.alternateLba == (if off == 1 then Sectors(job.size, job.ss) - 1 else 1)
            && h.entrySize == ENTRY_BYTES && h.entryCount == NewCount(g, job.ss, job.size)
            && h.firstUsable == FirstUsableLba(g, job.ss, job.size)
            && h.lastUsable == LastUsableLba(g, job.ss, job.size)
  {
    hide Gpt.Valid, AlignedEntries, FirstUsableLba, LastUsableLba, TablePlaced, NewTable, NewCount;
  }

  lemma CopyUsableArithmetic(last: int, size: nat, table: nat, ss: nat)
    requires SectorSize(ss) && Span(last + 1, ss) <= size - ss - table
    ensures Span(last + 2, ss) <= size
  {
  }

  /** A new copy can itself be rebuilt. */
  lemma CopyIsRebuildable(job: Job, off: nat)
    requires CopyOf(job, off)
    ensures Rebuildable(CopyAsRead(job, off), job.size)
  {
    hide Gpt.Valid, Convertible, Fits, AlignedEntries, FirstUsableLba, LastUsableLba, NewCount, NewTable, TablePlaced,
         NewHeader, Used, EntryAt, Start, End, RoundUp;
    var g, n, ss, size := job.g, CopyAsRead(job, off), job.ss, job.size;
    RebuildableNumbers(g, size);
    CopyIsValid(job, off);
    CopyHeaderFields(job, off);
    CountIsLargestThatFits(g, ss, size);
    CountFits(g, ss, size);
    HeaderFieldsInRange(g, ss, size);
    CopyUsableArithmetic(n.header.lastUsable, size, RequiredBytes(NewCount(g, ss, size), ss), ss);
    HeaderSizeFits(g, size);
    forall i | 0 <= i < n.used && Used(EntryAt(n.table, i))
      ensures n.header.firstUsable <= Start(EntryAt(n.table, i)) <= End(EntryAt(n.table, i)) <= n.header.lastUsable
    {
      assert UsedAt(n, i);
      UsedEntrySurvives(job.crc, g, off, ss, size, i);
    }
  }

  /** Tables that describe the same partitions have the same extent. */
  lemma SameExtent(g: Gpt, g': Gpt, size: nat)
    requires Rebuildable(g, size) && Rebuildable(g', size) && SamePartitions(g, g')
    ensures DataLo(g') == DataLo(g) && DataHi(g') == DataHi(g)
  {
    hide Rebuildable, Gpt.Valid, DataLo, DataHi, StartByte, EndByte, UsedAt;
    var i, j := DataWitnesses(g, size);
    var i', j' := DataWitnesses(g', size);
    ValidCounts(g);
    ValidCounts(g');
    UsedEntryBounds(g, size, i');
    UsedEntryBounds(g, size, j');
    UsedEntryBounds(g', size, i);
    UsedEntryBounds(g', size, j);
  }

  lemma NarrowerNeedsLess(n: nat)
    ensures RequiredBytes(n, 512) <= RequiredBytes(n, 4096)
  {
    hide RoundUp, Aligned;
    BigGridAligned(RequiredBytes(n, 4096));
    RoundUpLeast(ENTRY_BYTES * n, 512, RequiredBytes(n, 4096));
  }

  lemma BigGridAligned(x: nat)
    requires Aligned(x, 4096)
    ensures Aligned(x, 512)
  {
  }

  /** Converting back completes exactly when the used entries fit in a table for the old sector size. */
  lemma ConvertingBackVerdict(job: Job, off: nat)
    requires CopyOf(job, off)
    ensures var n, ss := CopyAsRead(job, off), job.g.sectorSize;
            && n.Valid() && SectorSize(ss)
            && (Verdict(n, ss, job.size) == Completed <==> Fits(job.g, ss, job.size, job.g.used))
  {
    hide Gpt.Valid, Rebuildable, AlignedEntries, FirstUsableLba, LastUsableLba, NewCount, NewTable, TablePlaced,
         NewHeader, DataLo, DataHi, RoundUp, Aligned, StartByte, EndByte, UsedAt;
    var g, n, size := job.g, CopyAsRead(job, off), job.size;
    RebuildableNumbers(g, size);
    CopyIsValid(job, off);
    CopyIsRebuildable(job, off);
    CopyHeaderFields(job, off);
    SameExtent(g, n, size);
    AlignedBack(g, n);
    HeaderSizeFits(g, size);
  }

  /** From 512 to 4096 bytes and back it always does, and keeps the entry count of the first conversion. */
  lemma ConvertingBackSucceeds(job: Job, off: nat)
    requires CopyOf(job, off) && job.ss == 4096
    ensures var n := CopyAsRead(job, off);
            && n.Valid() && Verdict(n, 512, job.size) == Completed
            && NewCount(n, 512, job.size) == n.header.entryCount == NewCount(job.g, 4096, job.size)
  {
    hide Gpt.Valid, Rebuildable, AlignedEntries, FirstUsableLba, LastUsableLba, NewTable, TablePlaced, NewHeader,
         DataLo, DataHi, RoundUp, Aligned, StartByte, EndByte, UsedAt, SamePartitions;
    var g, n, size := job.g, CopyAsRead(job, off), job.size;
    RebuildableNumbers(g, size);
    CopyIsValid(job, off);
    CopyIsRebuildable(job, off);
    CopyHeaderFields(job, off);
    SameExtent(g, n, size);
    CountIsLargestThatFits(g, 4096, size);
    NarrowerNeedsLess(g.used);
    NarrowerNeedsLess(NewCount(g, 4096, size));
    ConvertingBackVerdict(job, off);
    RequiredHolds(NewCount(g, 4096, size));
  }

  lemma RequiredHolds(n: nat)
    ensures ENTRY_BYTES * n <= RequiredBytes(n, 512)
  {
  }

  lemma HeaderSizeFits(g: Gpt, size: nat)
    requires Rebuildable(g, size)
    ensures HEADER_BYTES <= g.header.headerSize <= g.sectorSize
  {
  }

  /** The partitions were multiples of the old sector size to begin with. */
  lemma AlignedBack(g: Gpt, n: Gpt)
    requires SamePartitions(g, n)
    ensures g.Valid() && n.Valid() && AlignedEntries(n, g.sectorSize, n.used)
  {
    hide Used, EntryAt, Start, End, UsedAt, Gpt.Valid;
    ValidCounts(g);
    ValidCounts(n);
    forall i | 0 <= i < n.used && UsedAt(n, i)
      ensures Aligned(StartByte(n, i), g.sectorSize) && Aligned(EndByte(n, i), g.sectorSize)
    {
      EntryOnOwnSectors(g, i);
    }
  }

  /** The new copy can be converted back. */
  ghost predicate Returns(job: Job, off: nat) {
    && CopyOf(job, off) && CopyAsRead(job, off).Valid() && SectorSize(job.g.sectorSize)
    && Verdict(CopyAsRead(job, off), job.g.sectorSize, job.size) == Completed
  }

  /** The round trip gives back every entry that is kept, byte for byte. */
  lemma RoundTripEntry(job: Job, off: nat, i: nat)
    requires Returns(job, off) && i < NewCount(CopyAsRead(job, off), job.g.sectorSize, job.size)
    ensures i < job.g.header.entryCount
    ensures EntryAt(NewTable(CopyAsRead(job, off), job.g.sectorSize, job.size), i) == EntryAt(job.g.table, i)
  {
    hide Gpt.Valid, Rebuildable, AlignedEntries, Fits, NewCount, NewTable, TablePlaced, NewHeader, DataLo, DataHi,
         Used, EntryAt, Start, End, SamePartitions;
    var g, n, ss, size := job.g, CopyAsRead(job, off), job.ss, job.size;
    RebuildableNumbers(g, size);
    CountIsLargestThatFits(g, ss, size);
    CopyIsValid(job, off);
    CopyIsRebuildable(job, off);
    CopyHeaderFields(job, off);
    RebuildableNumbers(n, size);
    CountFits(n, g.sectorSize, size);
    var e, e' := EntryAt(g.table, i), EntryAt(NewTable(n, g.sectorSize, size), i);
    if UsedAt(g, i) {
      UsedBelow(g, i);
      UsedEntrySurvives(job.crc, g, off, ss, size, i);
      ByteRangeOf(n, i);
      UsedEntrySurvives(job.crc, n, 1, g.sectorSize, size, i);
      ByteRangeOf(g, i);
      SameLbas(Start(e), Start(e'), End(e), End(e'), g.sectorSize);
      SameRangeSameEntry(e, e');
    } else {
      UnusedEntryStays(job, i);
      AdjustTableKeepsUnused(n, g.sectorSize, size, i);
    }
  }

  lemma SameLbas(a: int, b: int, c: int, d: int, ss: nat)
    requires SectorSize(ss) && Span(a, ss) == Span(b, ss) && Span(c + 1, ss) == Span(d + 1, ss)
    ensures a == b && c == d
  {
  }

  lemma UsedBelow(g: Gpt, i: nat)
    requires g.Valid() && i < g.header.entryCount && UsedAt(g, i)
    ensures i < g.used
  {
  }

  lemma AdjustTableKeepsUnused(g: Gpt, ss: nat, size: nat, i: nat)
    requires Rebuildable(g, size) && SectorSize(ss) && Convertible(g, ss, size)
    requires i < NewCount(g, ss, size) && NewCount(g, ss, size) <= g.header.entryCount && !UsedAt(g, i)
    ensures EntryAt(NewTable(g, ss, size), i) == EntryAt(g.table, i)
  {
    AdjustTableAt(g, ss, NewCount(g, ss, size), i);
  }

  lemma {:induction false} TablesEqual(s: seq<byte>, t: seq<byte>, n: nat)
    requires |s| == |t| == ENTRY_BYTES * n
    requires forall i :: 0 <= i < n ==> EntryAt(s, i) == EntryAt(t, i)
    ensures s == t
  {
    if n > 0 {
      var m := ENTRY_BYTES * (n - 1);
      forall i | 0 <= i < n - 1 ensures EntryAt(s[..m], i) == EntryAt(t[..m], i) {
        SliceOfSlice(s, 0, m, ENTRY_BYTES * i, ENTRY_BYTES * i + ENTRY_BYTES);
        SliceOfSlice(t, 0, m, ENTRY_BYTES * i, ENTRY_BYTES * i + ENTRY_BYTES);
        assert EntryAt(s, i) == EntryAt(t, i);
      }
      TablesEqual(s[..m], t[..m], n - 1);
      assert EntryAt(s, n - 1) == EntryAt(t, n - 1);
      assert s == s[..m] + EntryAt(s, n - 1) && t == t[..m] + EntryAt(t, n - 1);
    }
  }

  /** In either direction: a table that can be converted back comes back as the original one, cut to the number of
      entries for which there was room, and that number covers all used entries. */
  lemma RoundTrip(job: Job, off: nat)
    requires Returns(job, off)
    ensures var n, count := CopyAsRead(job, off), NewCount(CopyAsRead(job, off), job.g.sectorSize, job.size);
            && Rebuildable(n, job.size)
            && job.g.used <= count <= job.g.header.entryCount
            && |job.g.table| == ENTRY_BYTES * job.g.header.entryCount
            && NewTable(n, job.g.sectorSize, job.size) == job.g.table[..ENTRY_BYTES * count]
  {
    hide Gpt.Valid, Rebuildable, AlignedEntries, NewCount, NewTable, TablePlaced, NewHeader, EntryAt, CopyAsRead;
    var g, n, size := job.g, CopyAsRead(job, off), job.size;
    RebuildableNumbers(g, size);
    CopyIsValid(job, off);
    CopyIsRebuildable(job, off);
    CopyHeaderFields(job, off);
    CountIsLargestThatFits(g, job.ss, size);
    CountIsLargestThatFits(n, g.sectorSize, size);
    CountFits(n, g.sectorSize, size);
    var count := NewCount(n, g.sectorSize, size);
    TableLength(g);
    var s, t := NewTable(n, g.sectorSize, size), g.table[..ENTRY_BYTES * count];
    forall i | 0 <= i < count ensures EntryAt(s, i) == EntryAt(t, i) {
      RoundTripEntry(job, off, i);
      EntryOfPrefix(g.table, count, i);
    }
    TablesEqual(s, t, count);
  }

  lemma TableLength(g: Gpt)
    requires g.Valid()
    ensures |g.table| == ENTRY_BYTES * g.header.entryCount
  {
  }

  lemma EntryOfPrefix(table: seq<byte>, n: nat, i: nat)
    requires ENTRY_BYTES * n <= |table| && i < n
    ensures EntryAt(table[..ENTRY_BYTES * n], i) == EntryAt(table, i)
  {
    SliceOfSlice(table, 0, ENTRY_BYTES * n, ENTRY_BYTES * i, ENTRY_BYTES * i + ENTRY_BYTES);
  }

  // ----- The round trip on the device -----

  /** The job of converting a device back, once its MBR and its primary table have been read. */
  ghost function BackJob(job: Job, mbr: seq<byte>): Job
    requires CopyOf(job, 1)
  {
    Job(job.crc, CopyAsRead(job, 1), 1, job.g.sectorSize, job.size, mbr)
  }

  lemma RebuildableIsSane(g: Gpt, size: nat)
    requires Rebuildable(g, size)
    ensures Sane(g, 1)
  {
    hide Gpt.Valid, EntryAt, Used, Start, End;
  }

  lemma WholeSectorsOfBothSizes(d: Disk)
    requires |d| % 4096 == 0
    ensures Device(d, 512) && Device(d, 4096)
  {
  }

  /** A device on which the new primary copy is found can be converted back. */
  lemma CopyStartsBack(job: Job, r: Disk, mbr: seq<byte>)
    requires Returns(job, 1) && |r| == job.size && Device(r, job.ss) && |mbr| == MBR_BYTES
    requires ReadGpt(job.crc, r, 1, job.ss) == Found(CopyAsRead(job, 1))
    ensures Started(BackJob(job, mbr), r)
  {
    hide Gpt.Valid, Rebuildable, Convertible, Fits, AlignedEntries, CopyAsRead, NewCount, ReadGpt, TablePlaced, Sane;
    RebuildableNumbers(job.g, job.size);
    CopyIsRebuildable(job, 1);
    RebuildableIsSane(CopyAsRead(job, 1), job.size);
    FoundIsRebuildable(job.crc, r, 1, job.ss, CopyAsRead(job, 1));
    FoundOnSixSectors(job.crc, r, 1, job.ss, CopyAsRead(job, 1));
    WholeSectorsOfBothSizes(r);
  }

  lemma PrimaryAfterRun(job: Job, d: Disk)
    requires Started(job, d)
    ensures AllFit(FixWrites(job), |d|)
    ensures var r := ApplyAll(d, FixWrites(job));
            Device(r, job.ss) && ReadGpt(job.crc, r, 1, job.ss) == Found(CopyAsRead(job, 1))
  {
    hide Job.Valid, ReadGpt, FixWrites, ApplyAll, CopyAsRead;
    FixWritesFit(job);
    BothCopiesAfterRun(job, d);
    OneCopyIsPrimary(job);
  }
}
