/** Fix mode: create_new_gpt for both copies, in the order main chooses. */
module GptFix {
  import opened Bytes
  import opened GptFormat
  import opened GptCheck
  import opened GptAdjust

  const BIG := 4096
  const MBR_BYTES := 512

  // ----- The writes -----

  /** The circumstances of a fix run: a table for the other sector size, found at `source`, that can be
      rebuilt for this device. A header size above the new sector size stops the run at line 789. */
  datatype Job = Job(crc: Checksum, g: Gpt, source: nat, ss: nat, size: nat, mbr: seq<byte>) {
    ghost predicate Valid() {
      && Rebuildable(g, size) && SectorSize(ss) && ss != g.sectorSize
      && Convertible(g, ss, size)
      && g.header.headerSize <= ss
      && (source == 1 || source == Sectors(size, g.sectorSize) - 1)
      && TablePlaced(g, source, size)
      && |mbr| == MBR_BYTES
    }

    /** The copy that was not used is overwritten first. */
    ghost function FirstOffset(): (off: nat)
      requires Valid()
      ensures off == 1 || off == Sectors(size, ss) - 1
    {
      if source == 1 then Sectors(size, ss) - 1 else 1
    }

    ghost function SecondOffset(): (off: nat)
      requires Valid()
      ensures off == 1 || off == Sectors(size, ss) - 1
    {
      if source == 1 then 1 else Sectors(size, ss) - 1
    }
  }

  /** Lines 804-830: wipe what the new copy replaces. */
  function WipeWrites(job: Job, off: nat): seq<Write>
    requires SectorSize(job.ss) && job.size >= 6 * BIG
  {
    if off == Sectors(job.size, job.ss) - 1 then [Write(job.size - BIG, Zeros(BIG))]
    else if job.ss == BIG then [Write(0, job.mbr + Zeros(BIG - MBR_BYTES))]
    else [Write(0, job.mbr), Write(512, Zeros(512)), Write(BIG, Zeros(BIG))]
  }

  /** Lines 831-832: entry array, then header sector. */
  function TableWrites(n: Rebuilt, ss: nat): seq<Write>
    requires SectorSize(ss) && n.header.WellFormed()
  {
    [Write(Span(n.header.entryLba, ss), n.entries),
     Write(Span(n.header.myLba, ss), EncodeHeader(n.header) + Zeros(ss - HEADER_BYTES))]
  }

  function NewCopy(job: Job, off: nat): (n: Rebuilt)
    requires job.Valid() && (off == 1 || off == Sectors(job.size, job.ss) - 1)
    ensures n.header.WellFormed()
  {
    var table := NewTable(job.g, job.ss, job.size);
    CountFits(job.g, job.ss, job.size);
    Rebuilt(NewHeader(job.crc, job.g, off, job.ss, job.size),
            table + Zeros(RequiredBytes(NewCount(job.g, job.ss, job.size), job.ss) - |table|))
  }

  /** create_new_gpt */
  function CreateWrites(job: Job, off: nat): seq<Write>
    requires job.Valid() && (off == 1 || off == Sectors(job.size, job.ss) - 1)
  {
    WipeWrites(job, off) + TableWrites(NewCopy(job, off), job.ss)
  }

  ghost function FixWrites(job: Job): seq<Write>
    requires job.Valid()
  {
    CreateWrites(job, job.FirstOffset()) + CreateWrites(job, job.SecondOffset())
  }

  // ----- Where the writes go -----

  lemma CopyPlacement(job: Job, off: nat)
    requires job.Valid() && (off == 1 || off == Sectors(job.size, job.ss) - 1)
    ensures var n, ss := NewCopy(job, off), job.ss;
            && n.header.myLba == off && |n.entries| == RequiredBytes(NewCount(job.g, ss, job.size), ss) >= ss
            && (off == 1 ==> Span(n.header.entryLba, ss) == 2 * ss && 2 * ss + |n.entries| <= DataLo(job.g))
            && (off != 1 ==> Span(n.header.entryLba, ss) + |n.entries| == job.size - ss == Span(off, ss)
                             && DataHi(job.g) <= Span(n.header.entryLba, ss))
  {
    hide Gpt.Valid, Rebuildable, AlignedEntries, DataLo, DataHi, NewCount, RoundUp, Aligned, FirstUsableLba,
         LastUsableLba, AdjustTable, NewTable, EncodeHeader, TablePlaced, RequiredBytes, Span, Sectors;
    RebuildableNumbers(job.g, job.size);
    LastSector(job.size, job.ss);
    CountFits(job.g, job.ss, job.size);
    HeaderFieldsInRange(job.g, job.ss, job.size);
  }

  lemma LastSector(size: nat, ss: nat)
    requires SectorSize(ss) && size % BIG == 0 && size >= 6 * BIG
    ensures Aligned(size, ss) && Sectors(size, ss) >= 6
    ensures Span(2, ss) == 2 * ss && Span(Sectors(size, ss) - 1, ss) == size - ss
  {
  }

  /** All of user data lies between 3 old sectors and the last old sector, in steps of the larger size. */
  lemma DataOnBigGrid(job: Job)
    requires job.Valid()
    ensures 3 * job.g.sectorSize <= DataLo(job.g) < DataHi(job.g) <= job.size - job.g.sectorSize
    ensures DataLo(job.g) % BIG == 0 && DataHi(job.g) % BIG == 0
    ensures DataLo(job.g) >= 3 * job.ss && DataHi(job.g) <= job.size - BIG
  {
    hide Gpt.Valid, Rebuildable, AlignedEntries, DataLo, DataHi, NewCount, RoundUp, TablePlaced;
    var g := job.g;
    RebuildableNumbers(g, job.size);
    DataBounds(g, job.size);
    DataAligned(g, job.size, job.ss);
    CopyPlacement(job, 1);
  }

  predicate AllWithin(ws: seq<Write>, lo: int, hi: int) {
    forall i :: 0 <= i < |ws| ==> lo <= ws[i].offset && ws[i].EndOffset() <= hi
  }

  /** Every write of the primary copy ends before the first partition starts. */
  lemma PrimaryBelowData(job: Job)
    requires job.Valid()
    ensures AllWithin(CreateWrites(job, 1), 0, DataLo(job.g))
  {
    hide Gpt.Valid, Rebuildable, DataLo, DataHi, NewCopy, EncodeHeader, TablePlaced, Convertible;
    RebuildableNumbers(job.g, job.size);
    DataOnBigGrid(job);
    CopyPlacement(job, 1);
  }

  /** Every write of the backup copy, the 4096-byte wipe included, starts after the last partition ends. */
  lemma BackupAboveData(job: Job)
    requires job.Valid()
    ensures AllWithin(CreateWrites(job, Sectors(job.size, job.ss) - 1), DataHi(job.g), job.size)
  {
    hide Gpt.Valid, Rebuildable, DataLo, DataHi, NewCopy, EncodeHeader, TablePlaced, Convertible;
    RebuildableNumbers(job.g, job.size);
    DataOnBigGrid(job);
    CopyPlacement(job, Sectors(job.size, job.ss) - 1);
  }

  // ----- Reading a new copy back -----

  lemma {:induction false} UsedCountIs(table: seq<byte>, n: nat, k: nat)
    requires ENTRY_BYTES * n <= |table| && 0 < k <= n
    requires Used(EntryAt(table, k - 1))
    requires forall i :: k <= i < n ==> !Used(EntryAt(table, i))
    ensures UsedCount(table, n) == k
  {
    hide Used, EntryAt;
    if k < n {
      UsedCountIs(table, n - 1, k);
    }
  }

  /** The table struct that read_and_check_gpt builds from a new copy. */
  function CopyAsRead(job: Job, off: nat): Gpt
    requires job.Valid() && (off == 1 || off == Sectors(job.size, job.ss) - 1)
  {
    Gpt(NewHeader(job.crc, job.g, off, job.ss, job.size), NewTable(job.g, job.ss, job.size), job.g.used, job.ss)
  }

  lemma UnusedEntryStays(job: Job, i: nat)
    requires job.Valid() && i < NewCount(job.g, job.ss, job.size) && !UsedAt(job.g, i)
    ensures EntryAt(NewTable(job.g, job.ss, job.size), i) == EntryAt(job.g.table, i)
  {
    CountFits(job.g, job.ss, job.size);
    AdjustTableAt(job.g, job.ss, NewCount(job.g, job.ss, job.size), i);
  }

  lemma NewTableJudged(job: Job, off: nat)
    requires job.Valid() && (off == 1 || off == Sectors(job.size, job.ss) - 1)
    ensures var h := NewHeader(job.crc, job.g, off, job.ss, job.size);
            && h.entrySize == ENTRY_BYTES && |NewTable(job.g, job.ss, job.size)| == ENTRY_BYTES * h.entryCount
            && JudgeTable(job.crc, h, NewTable(job.g, job.ss, job.size), job.ss) == Found(CopyAsRead(job, off))
  {
    hide Rebuildable, Convertible, Fits, DataLo, DataHi, NewCount, AdjustTable, NewTable, EncodeHeader, TablePlaced,
         Used, EntryAt, Start, End, FirstUsableLba, LastUsableLba, EntryLba, RequiredBytes, UsedCount;
    var g, ss, size := job.g, job.ss, job.size;
    RebuildableNumbers(g, size);
    CountIsLargestThatFits(g, ss, size);
    CountFits(g, ss, size);
    var h, table := NewHeader(job.crc, g, off, ss, size), NewTable(g, ss, size);
    forall i | 0 <= i < h.entryCount
      ensures Used(EntryAt(table, i)) <==> UsedAt(g, i)
      ensures Used(EntryAt(table, i)) ==>
                h.firstUsable <= Start(EntryAt(table, i)) && End(EntryAt(table, i)) <= h.lastUsable
    {
      if UsedAt(g, i) {
        assert i < g.used;
        UsedEntrySurvives(job.crc, g, off, ss, size, i);
      } else {
        UnusedEntryStays(job, i);
      }
    }
    assert UsedAt(g, g.used - 1);
    UsedCountIs(table, h.entryCount, g.used);
  }

  lemma TableReadFromDisk(crc: Checksum, d: Disk, h: Header, ss: nat, table: seq<byte>)
    requires SectorSize(ss) && h.WellFormed() && h.entrySize == ENTRY_BYTES && |table| == h.TableBytes()
    requires var at := Span(h.entryLba, ss);
             at < TWO63 && at + RoundUp(|table|, ss) <= |d| && d[at..at + |table|] == table
    ensures ReadTable(crc, d, h, ss) == JudgeTable(crc, h, table, ss)
  {
  }

  /** Header and entries of n are on disk at the places the header names. */
  predicate OnDisk(d: Disk, n: Rebuilt, off: nat, ss: nat)
    requires SectorSize(ss) && n.header.WellFormed()
  {
    var at, tableAt := Span(off, ss), Span(n.header.entryLba, ss);
    && tableAt + |n.entries| <= |d| && at + ss <= |d|
    && d[tableAt..tableAt + |n.entries|] == n.entries
    && d[at..at + ss] == EncodeHeader(n.header) + Zeros(ss - HEADER_BYTES)
  }

  lemma FoundOnDisk(crc: Checksum, d: Disk, n: Rebuilt, off: nat, ss: nat, g: Gpt)
    requires Device(d, ss) && (off == 1 || off >= 5) && off < Sectors(|d|, ss) && Sectors(|d|, ss) >= 6
    requires |d| < TWO63 && n.header.WellFormed() && OnDisk(d, n, off, ss)
    requires n.header == g.header && g.header.entrySize == ENTRY_BYTES && |g.table| == g.header.TableBytes()
    requires |n.entries| == RoundUp(|g.table|, ss) && g.table == n.entries[..|g.table|]
    requires CheckHeader(crc, g.header, off, ss, Sectors(|d|, ss)).Accepted?
    requires JudgeTable(crc, g.header, g.table, ss) == Found(g)
    ensures ReadGpt(crc, d, off, ss) == Found(g)
  {
    hide EncodeHeader, ReadTable, ReadGpt, JudgeTable, CheckHeader, ParseHeader, RoundUp, Sectors, Gpt.Valid;
    ParseEncodeHeader(g.header, Zeros(ss - HEADER_BYTES));
    var at := Span(g.header.entryLba, ss);
    SliceOfSlice(d, at, at + |n.entries|, 0, |g.table|);
    TableReadFromDisk(crc, d, g.header, ss, g.table);
    FoundFrom(crc, d, off, ss, g);
  }

  /** A new copy, padded to whole sectors, is the table that will be read. */
  lemma CopyImage(job: Job, off: nat)
    requires job.Valid() && (off == 1 || off == Sectors(job.size, job.ss) - 1)
    ensures var n, g := NewCopy(job, off), CopyAsRead(job, off);
            && n.header == g.header == NewHeader(job.crc, job.g, off, job.ss, job.size) && n.header.WellFormed()
            && g.table == NewTable(job.g, job.ss, job.size) && g.header.entrySize == ENTRY_BYTES
            && |g.table| == g.header.TableBytes()
            && |n.entries| == RoundUp(|g.table|, job.ss) && g.table == n.entries[..|g.table|]
  {
    hide Gpt.Valid, Rebuildable, Convertible, Fits, NewCount, AdjustTable, EncodeHeader, TablePlaced, RoundUp,
         JudgeTable, Span, Sectors;
    CountFits(job.g, job.ss, job.size);
    NewTableJudged(job, off);
  }

  /** Once the table and then the header of a copy are on disk, the search finds that copy. */
  lemma CopyIsFound(job: Job, d: Disk, off: nat)
    requires job.Valid() && |d| == job.size && (off == 1 || off == Sectors(job.size, job.ss) - 1)
    requires OnDisk(d, NewCopy(job, off), off, job.ss)
    ensures Device(d, job.ss) && ReadGpt(job.crc, d, off, job.ss) == Found(CopyAsRead(job, off))
  {
    hide Gpt.Valid, Rebuildable, Convertible, Fits, NewCount, NewTable, EncodeHeader, TablePlaced, OnDisk, ReadGpt,
         JudgeTable, NewHeader, CheckHeader, RoundUp, NewCopy, CopyAsRead, Span, Sectors, Aligned;
    RebuildableNumbers(job.g, job.size);
    LastSector(job.size, job.ss);
    CopyImage(job, off);
    NewTableJudged(job, off);
    RebuiltHeaderVerdict(job.crc, job.g, off, job.ss, job.size);
    FoundOnDisk(job.crc, d, NewCopy(job, off), off, job.ss, CopyAsRead(job, off));
  }

  // ----- Crash safety -----

  /** g' describes the same partitions as g: the same entries are used, for the same bytes of the device. */
  ghost predicate SamePartitions(g: Gpt, g': Gpt) {
    && g.Valid() && g'.Valid() && g'.used == g.used
    && forall i :: 0 <= i < g.used ==>
         && (UsedAt(g, i) <==> UsedAt(g', i))
         && (UsedAt(g, i) ==> StartByte(g', i) == StartByte(g, i) && EndByte(g', i) == EndByte(g, i))
  }

  /** Some copy, at a place where main looks for one of the two sector sizes, describes the partitions of g. */
  ghost predicate HoldsGoodTable(crc: Checksum, d: Disk, g: Gpt) {
    exists off: nat, ss: nat, g' ::
      && Device(d, ss) && (off == 1 || off == Sectors(|d|, ss) - 1)
      && ReadGpt(crc, d, off, ss) == Found(g') && SamePartitions(g, g')
  }

  lemma CopyHasSamePartitions(job: Job, off: nat)
    requires job.Valid() && (off == 1 || off == Sectors(job.size, job.ss) - 1)
    requires CopyAsRead(job, off).Valid()
    ensures SamePartitions(job.g, CopyAsRead(job, off))
  {
    hide Rebuildable, Convertible, Fits, NewCount, NewTable, NewHeader, TablePlaced, Used, Start, End, EntryAt,
         Gpt.Valid, StartByte, EndByte;
    var g, ss, size, n := job.g, job.ss, job.size, CopyAsRead(job, off);
    RebuildableNumbers(g, size);
    CountIsLargestThatFits(g, ss, size);
    CountFits(g, ss, size);
    ValidCounts(n);
    forall i | 0 <= i < g.used
      ensures UsedAt(g, i) <==> UsedAt(n, i)
      ensures UsedAt(g, i) ==> StartByte(n, i) == StartByte(g, i) && EndByte(n, i) == EndByte(g, i)
    {
      if UsedAt(g, i) {
        UsedEntrySurvives(job.crc, g, off, ss, size, i);
        ByteRangeOf(n, i);
      } else {
        UnusedEntryStays(job, i);
      }
    }
  }

  lemma ValidCounts(g: Gpt)
    requires g.Valid()
    ensures 0 < g.used <= g.header.entryCount && SectorSize(g.sectorSize)
  {
  }

  lemma ByteRangeOf(g: Gpt, i: nat)
    requires g.Valid() && i < g.header.entryCount
    ensures StartByte(g, i) == Span(Start(EntryAt(g.table, i)), g.sectorSize)
    ensures EndByte(g, i) == Span(End(EntryAt(g.table, i)) + 1, g.sectorSize)
  {
  }

  lemma WritesFit(job: Job, off: nat)
    requires job.Valid() && (off == 1 || off == Sectors(job.size, job.ss) - 1)
    ensures AllFit(CreateWrites(job, off), job.size)
  {
    hide Gpt.Valid, Rebuildable, Convertible, TablePlaced, NewCopy, CreateWrites;
    DataOnBigGrid(job);
    if off == 1 {
      PrimaryBelowData(job);
    } else {
      BackupAboveData(job);
    }
  }

  lemma TwoWrites(d: Disk, a: Write, b: Write)
    requires a.Fits(|d|) && b.Fits(|d|) && b.Avoids(a.offset, a.EndOffset())
    ensures AllFit([a, b], |d|)
    ensures var r := ApplyAll(d, [a, b]);
            r[a.offset..a.EndOffset()] == a.data && r[b.offset..b.EndOffset()] == b.data
  {
    assert [a, b][..1] == [a] && [a][..0] == [];
    assert ApplyAll(d, [a]) == Apply(ApplyAll(d, []), a);
    assert ApplyAll(d, [a, b]) == Apply(Apply(d, a), b);
    ApplyKeeps(Apply(d, a), b, a.offset, a.EndOffset());
  }

  /** After create_new_gpt, the copy it wrote is found. */
  lemma CreatedCopyIsFound(job: Job, d: Disk, off: nat)
    requires job.Valid() && |d| == job.size && (off == 1 || off == Sectors(job.size, job.ss) - 1)
    requires AllFit(CreateWrites(job, off), |d|)
    ensures var r := ApplyAll(d, CreateWrites(job, off));
            Device(r, job.ss) && ReadGpt(job.crc, r, off, job.ss) == Found(CopyAsRead(job, off))
  {
    hide Gpt.Valid, Rebuildable, Convertible, TablePlaced, NewCopy, ApplyAll, EncodeHeader, CopyAsRead, ReadGpt,
         NewCount, RoundUp, DataLo, DataHi;
    RebuildableNumbers(job.g, job.size);
    CopyPlacement(job, off);
    var n, wipe := NewCopy(job, off), WipeWrites(job, off);
    var ws := TableWrites(n, job.ss);
    assert CreateWrites(job, off) == wipe + ws;
    assert AllFit(wipe, |d|) && AllFit(ws, |d|) by {
      FitParts(wipe, ws, |d|);
    }
    ApplyAllConcat(d, wipe, ws);
    assert ws == [ws[0], ws[1]];
    TwoWrites(ApplyAll(d, wipe), ws[0], ws[1]);
    CopyIsFound(job, ApplyAll(d, CreateWrites(job, off)), off);
  }

  lemma FitParts(a: seq<Write>, b: seq<Write>, size: nat)
    requires AllFit(a + b, size)
    ensures AllFit(a, size) && AllFit(b, size)
  {
    forall i | 0 <= i < |a| ensures a[i].Fits(size) {
      assert (a + b)[i] == a[i];
    }
    forall i | 0 <= i < |b| ensures b[i].Fits(size) {
      assert (a + b)[|a| + i] == b[i];
    }
  }

  lemma WithinAvoids(ws: seq<Write>, k: nat, wlo: int, whi: int, lo: int, hi: int)
    requires AllWithin(ws, wlo, whi) && k <= |ws| && (whi <= lo || hi <= wlo)
    ensures AllAvoid(ws[..k], lo, hi)
  {
  }

  /** A table whose sectors no write touches is found after any number of the writes. */
  lemma UntouchedTableIsFound(crc: Checksum, d: Disk, ws: seq<Write>, k: nat, off: nat, ss: nat, g: Gpt)
    requires Device(d, ss) && AllFit(ws, |d|) && k <= |ws|
    requires ReadGpt(crc, d, off, ss) == Found(g)
    requires AllAvoid(ws[..k], Span(off, ss), Span(off, ss) + ss)
    requires var at := TableOffset(g.header, ss); AllAvoid(ws[..k], at, at + |g.table|)
    ensures ReadGpt(crc, AfterCrash(d, ws, k), off, ss) == Found(g)
  {
    hide ReadGpt, CheckHeader, ReadTable, ParseHeader, ApplyAll, AllAvoid, Sectors, Gpt.Valid, Span;
    FoundParts(crc, d, off, ss, g);
    TableOfFound(crc, d, ss, g);
    SectorInside(d, off, ss);
    var at, r := TableOffset(g.header, ss), AfterCrash(d, ws, k);
    ApplyAllKeeps(d, ws[..k], Span(off, ss), Span(off, ss) + ss);
    ApplyAllKeeps(d, ws[..k], at, at + |g.table|);
    ReadGptFrame(crc, d, r, off, ss, g);
  }

  lemma SectorInside(d: Disk, off: nat, ss: nat)
    requires Device(d, ss) && off < Sectors(|d|, ss)
    ensures 0 <= Span(off, ss) && Span(off, ss) + ss <= |d|
  {
  }

  /** While the first copy is being written, the table in use stays readable. */
  lemma SourceSurvivesFirstCopy(job: Job, d: Disk, k: nat)
    requires job.Valid() && |d| == job.size && Device(d, job.g.sectorSize)
    requires ReadGpt(job.crc, d, job.source, job.g.sectorSize) == Found(job.g)
    requires var ws := CreateWrites(job, job.FirstOffset()); k <= |ws| && AllFit(ws, |d|)
    ensures ReadGpt(job.crc, AfterCrash(d, CreateWrites(job, job.FirstOffset()), k), job.source, job.g.sectorSize)
         == Found(job.g)
  {
    hide Rebuildable, Convertible, NewCopy, CreateWrites, ReadGpt, RoundUp, DataLo, DataHi, AllWithin, AllAvoid,
         Gpt.Valid, AfterCrash;
    RebuildableNumbers(job.g, job.size);
    var g, from := job.g, job.g.sectorSize;
    var ws := CreateWrites(job, job.FirstOffset());
    DataBounds(g, job.size);
    var at, header := TableOffset(g.header, from), Span(job.source, from);
    if job.source == 1 {
      BackupAboveData(job);
      WithinAvoids(ws, k, DataHi(g), job.size, header, header + from);
      WithinAvoids(ws, k, DataHi(g), job.size, at, at + |g.table|);
    } else {
      PrimaryBelowData(job);
      WithinAvoids(ws, k, 0, DataLo(g), header, header + from);
      WithinAvoids(ws, k, 0, DataLo(g), at, at + |g.table|);
    }
    UntouchedTableIsFound(job.crc, d, ws, k, job.source, from, g);
  }

  lemma CopyRegions(job: Job, off: nat)
    requires job.Valid() && (off == 1 || off == Sectors(job.size, job.ss) - 1)
    ensures var g, header := CopyAsRead(job, off), Span(off, job.ss);
            var at := TableOffset(NewHeader(job.crc, job.g, off, job.ss, job.size), job.ss);
            && (off == 1 ==> header + job.ss <= DataLo(job.g) && at + |g.table| <= DataLo(job.g))
            && (off != 1 ==> DataHi(job.g) <= header && DataHi(job.g) <= at)
  {
    hide Gpt.Valid, Rebuildable, Convertible, TablePlaced, NewHeader, NewCount, RoundUp, DataLo, DataHi, NewTable;
    RebuildableNumbers(job.g, job.size);
    CountFits(job.g, job.ss, job.size);
    DataOnBigGrid(job);
    CopyPlacement(job, off);
  }

  /** While the second copy is being written, the first new copy stays readable. */
  lemma FirstCopySurvivesSecond(job: Job, d: Disk, k: nat)
    requires job.Valid() && |d| == job.size && Device(d, job.ss)
    requires ReadGpt(job.crc, d, job.FirstOffset(), job.ss) == Found(CopyAsRead(job, job.FirstOffset()))
    requires var ws := CreateWrites(job, job.SecondOffset()); k <= |ws| && AllFit(ws, |d|)
    ensures ReadGpt(job.crc, AfterCrash(d, CreateWrites(job, job.SecondOffset()), k), job.FirstOffset(), job.ss)
         == Found(CopyAsRead(job, job.FirstOffset()))
  {
    hide Rebuildable, Convertible, NewCopy, CreateWrites, ReadGpt, RoundUp, DataLo, DataHi, AllWithin, AllAvoid,
         Gpt.Valid, AfterCrash, NewHeader, NewTable, TablePlaced;
    var off, ss, g := job.FirstOffset(), job.ss, CopyAsRead(job, job.FirstOffset());
    var ws := CreateWrites(job, job.SecondOffset());
    var at, header := TableOffset(g.header, ss), Span(off, ss);
    RebuildableNumbers(job.g, job.size);
    DataBounds(job.g, job.size);
    CopyRegions(job, off);
    if job.source == 1 {
      PrimaryBelowData(job);
      WithinAvoids(ws, k, 0, DataLo(job.g), header, header + ss);
      WithinAvoids(ws, k, 0, DataLo(job.g), at, at + |g.table|);
    } else {
      BackupAboveData(job);
      WithinAvoids(ws, k, DataHi(job.g), job.size, header, header + ss);
      WithinAvoids(ws, k, DataHi(job.g), job.size, at, at + |g.table|);
    }
    UntouchedTableIsFound(job.crc, d, ws, k, off, ss, g);
  }

  /** A fix run starts on a device that holds the table it was given. */
  ghost predicate Started(job: Job, d: Disk) {
    && job.Valid() && |d| == job.size && Device(d, job.g.sectorSize) && Device(d, job.ss)
    && ReadGpt(job.crc, d, job.source, job.g.sectorSize) == Found(job.g)
  }

  lemma FixWritesFit(job: Job)
    requires job.Valid()
    ensures AllFit(CreateWrites(job, job.FirstOffset()), job.size)
    ensures AllFit(CreateWrites(job, job.SecondOffset()), job.size)
    ensures AllFit(FixWrites(job), job.size)
  {
    hide Job.Valid, CreateWrites;
    WritesFit(job, job.FirstOffset());
    WritesFit(job, job.SecondOffset());
  }

  lemma CrashInFirst(d: Disk, a: seq<Write>, b: seq<Write>, k: nat)
    requires AllFit(a, |d|) && AllFit(b, |d|) && AllFit(a + b, |d|) && k <= |a|
    ensures AfterCrash(d, a + b, k) == AfterCrash(d, a, k)
  {
    assert (a + b)[..k] == a[..k];
  }

  lemma CrashInSecond(d: Disk, a: seq<Write>, b: seq<Write>, k: nat)
    requires AllFit(a, |d|) && AllFit(b, |d|) && AllFit(a + b, |d|) && |a| <= k <= |a| + |b|
    ensures AfterCrash(d, a + b, k) == AfterCrash(ApplyAll(d, a), b, k - |a|)
  {
    hide ApplyAll;
    assert (a + b)[..k] == a + b[..k - |a|];
    ApplyAllConcat(d, a, b[..k - |a|]);
  }

  /** Crash safety: after any prefix of the writes of a fix run, in either order of the copies, the table that
      was in use can still be found, or the first new copy can. */
  lemma GoodTableAtEveryMoment(job: Job, d: Disk, k: nat)
    requires Started(job, d) && AllFit(FixWrites(job), |d|) && k <= |FixWrites(job)|
    ensures var r := AfterCrash(d, FixWrites(job), k);
            var first := |CreateWrites(job, job.FirstOffset())|;
            && (k <= first ==> ReadGpt(job.crc, r, job.source, job.g.sectorSize) == Found(job.g))
            && (k >= first ==> ReadGpt(job.crc, r, job.FirstOffset(), job.ss)
                               == Found(CopyAsRead(job, job.FirstOffset())))
  {
    hide Job.Valid, ReadGpt, CreateWrites, ApplyAll, AfterCrash, CopyAsRead;
    FixWritesFit(job);
    var a, b := CreateWrites(job, job.FirstOffset()), CreateWrites(job, job.SecondOffset());
    if k <= |a| {
      CrashInFirst(d, a, b, k);
      SourceSurvivesFirstCopy(job, d, k);
    }
    if k >= |a| {
      CrashInSecond(d, a, b, k);
      CreatedCopyIsFound(job, d, job.FirstOffset());
      FirstCopySurvivesSecond(job, ApplyAll(d, a), k - |a|);
    }
  }

  lemma SourcePosition(job: Job)
    requires job.Valid()
    ensures SectorSize(job.g.sectorSize)
    ensures job.source == 1 || job.source == Sectors(job.size, job.g.sectorSize) - 1
  {
    hide Rebuildable, Convertible, TablePlaced;
    RebuildableNumbers(job.g, job.size);
  }

  /** The same, for any observer: at every moment some copy describes the original partitions. */
  lemma PartitionsNeverLost(job: Job, d: Disk, k: nat)
    requires Started(job, d) && AllFit(FixWrites(job), |d|) && k <= |FixWrites(job)|
    ensures HoldsGoodTable(job.crc, AfterCrash(d, FixWrites(job), k), job.g)
  {
    hide Job.Valid, ReadGpt, CreateWrites, FixWrites, ApplyAll, AfterCrash, CopyAsRead, StartByte, EndByte, Used,
         UsedAt;
    GoodTableAtEveryMoment(job, d, k);
    SourcePosition(job);
    if k <= |CreateWrites(job, job.FirstOffset())| {
      assert SamePartitions(job.g, job.g);
    } else {
      CopyHasSamePartitions(job, job.FirstOffset());
    }
  }

  /** When the run completes, both copies are found at the new sector size. */
  lemma BothCopiesAfterRun(job: Job, d: Disk)
    requires Started(job, d) && AllFit(FixWrites(job), |d|)
    ensures var r := ApplyAll(d, FixWrites(job));
            && ReadGpt(job.crc, r, job.FirstOffset(), job.ss) == Found(CopyAsRead(job, job.FirstOffset()))
            && ReadGpt(job.crc, r, job.SecondOffset(), job.ss) == Found(CopyAsRead(job, job.SecondOffset()))
  {
    hide Job.Valid, ReadGpt, CreateWrites, ApplyAll, CopyAsRead;
    FixWritesFit(job);
    var a, b := CreateWrites(job, job.FirstOffset()), CreateWrites(job, job.SecondOffset());
    GoodTableAtEveryMoment(job, d, |a + b|);
    assert (a + b)[..|a + b|] == a + b;
    ApplyAllConcat(d, a, b);
    CreatedCopyIsFound(job, ApplyAll(d, a), job.SecondOffset());
  }

  /** No byte of any partition changes, at any moment of the run. */
  lemma UserDataUntouched(job: Job, d: Disk, k: nat, i: nat)
    requires Started(job, d) && AllFit(FixWrites(job), |d|) && k <= |FixWrites(job)|
    requires i < job.g.used && UsedAt(job.g, i)
    ensures StartByte(job.g, i) <= EndByte(job.g, i) <= |d|
    ensures AfterCrash(d, FixWrites(job), k)[StartByte(job.g, i)..EndByte(job.g, i)]
         == d[StartByte(job.g, i)..EndByte(job.g, i)]
  {
    hide ReadGpt, CreateWrites, ApplyAll, Rebuildable, Convertible, TablePlaced, StartByte, EndByte, Gpt.Valid,
         DataLo, DataHi;
    RebuildableNumbers(job.g, job.size);
    var g, lo, hi := job.g, StartByte(job.g, i), EndByte(job.g, i);
    UsedEntryBounds(g, job.size, i);
    PrimaryBelowData(job);
    BackupAboveData(job);
    var a, b := CreateWrites(job, job.FirstOffset()), CreateWrites(job, job.SecondOffset());
    var ws: seq<Write> := (a + b)[..k];
    forall j | 0 <= j < |ws| ensures ws[j].Avoids(lo, hi) {
      assert ws[j] == if j < |a| then a[j] else b[j - |a|];
    }
    ApplyAllKeeps(d, ws, lo, hi);
  }
}
