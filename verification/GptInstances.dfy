/** Concrete devices: fix runs exist in both directions, and the failures that the general results allow do occur. */
module GptInstances {
  import opened Bytes
  import opened GptFormat
  import opened GptCheck
  import opened GptAdjust
  import opened GptFix
  import opened GptMain
  import opened GptRoundTrip
  import opened GptStray
  import opened GptRecovery
  import opened GptReturn

  const SIZE := 65536

  /** A table for ss-byte sectors: its entries, the last of which is used, and the fields of its header. */
  datatype Shape = Shape(table: seq<byte>, first: uint64, last: uint64, headerSize: uint32, ss: nat) {
    function Count(): nat {
      |table| / ENTRY_BYTES
    }

    predicate Valid() {
      && SectorSize(ss) && |table| % ENTRY_BYTES == 0 && ENTRY_BYTES <= |table| <= ss
      && 3 <= first <= last && Span(last + 2, ss) <= SIZE && HEADER_BYTES <= headerSize <= ss
      && Used(EntryAt(table, Count() - 1))
      && forall i :: 0 <= i < Count() && Used(EntryAt(table, i)) ==>
           first <= Start(EntryAt(table, i)) && End(EntryAt(table, i)) <= last
    }

    /** No used entry ends before it starts. */
    predicate Ordered()
      requires Valid()
    {
      forall i :: 0 <= i < Count() && Used(EntryAt(table, i)) ==> Start(EntryAt(table, i)) <= End(EntryAt(table, i))
    }
  }

  /** The primary table, with both checksums. */
  function TableOf(crc: Checksum, s: Shape): Gpt
    requires s.Valid()
  {
    var h := Header(SIGNATURE, REVISION, s.headerSize, 0, 0, 1, Sectors(SIZE, s.ss) - 1, s.first, s.last, Zeros(16),
                    2, s.Count(), ENTRY_BYTES, crc(s.table));
    Gpt(h.(headerCrc := crc(EncodeHeader(h))), s.table, s.Count(), s.ss)
  }

  lemma TableShape(crc: Checksum, s: Shape)
    requires s.Valid()
    ensures var g := TableOf(crc, s);
            && g.Valid() && g.table == s.table && g.header.TableBytes() == |s.table| && g.sectorSize == s.ss
            && g.header.entryLba == 2 && g.header.headerSize == s.headerSize
            && g.used == s.Count() == g.header.entryCount
            && g.header.firstUsable == s.first && g.header.lastUsable == s.last && g.header.tableCrc == crc(s.table)
  {
    hide Start, End, EncodeHeader, Used;
  }

  lemma HeaderIsAccepted(crc: Checksum, s: Shape)
    requires s.Valid()
    ensures CheckHeader(crc, TableOf(crc, s).header, 1, s.ss, Sectors(SIZE, s.ss)).Accepted?
  {
    hide EncodeHeader, Used, Start, End, EntryAt;
  }

  lemma TableIsJudged(crc: Checksum, s: Shape)
    requires s.Valid()
    ensures TableOf(crc, s).Valid()
    ensures var g := TableOf(crc, s); JudgeTable(crc, g.header, g.table, s.ss) == Found(g)
  {
    hide Start, End, Used, EntryAt, UsedCount, TableOf;
    TableShape(crc, s);
    UsedCountIs(s.table, s.Count(), s.Count());
  }

  /** A device with a protective MBR for the other sector size, the table, and `rest` behind it. */
  function DiskWith(crc: Checksum, s: Shape, rest: seq<byte>): (d: Disk)
    requires s.Valid()
  {
    ProtectiveMbr(Sectors(SIZE, OtherSize(s.ss))) + Zeros(s.ss - MBR_BYTES)
    + (EncodeHeader(TableOf(crc, s).header) + Zeros(s.ss - HEADER_BYTES)) + (s.table + Zeros(s.ss - |s.table|)) + rest
  }

  ghost predicate Fills(s: Shape, rest: seq<byte>) {
    s.Valid() && |rest| == SIZE - 3 * s.ss
  }

  lemma Pieces(a: seq<byte>, b: seq<byte>, c: seq<byte>, d: seq<byte>, e: seq<byte>)
    ensures var s := a + b + c + d + e; var i, j := |a| + |b|, |a| + |b| + |c|;
            && s[..|a|] == a && s[|a|..i] == b && s[i..j] == c && s[j..j + |d|] == d && s[j + |d|..] == e
  {
  }

  lemma DiskLayout(crc: Checksum, s: Shape, rest: seq<byte>)
    requires Fills(s, rest)
    ensures var d := DiskWith(crc, s, rest);
            && |d| == SIZE && d[..MBR_BYTES] == ProtectiveMbr(Sectors(SIZE, OtherSize(s.ss)))
            && d[MBR_BYTES..s.ss] == Zeros(s.ss - MBR_BYTES)
            && d[s.ss..2 * s.ss] == EncodeHeader(TableOf(crc, s).header) + Zeros(s.ss - HEADER_BYTES)
            && d[2 * s.ss..3 * s.ss] == s.table + Zeros(s.ss - |s.table|)
            && d[3 * s.ss..] == rest
  {
    hide EncodeHeader, ProtectiveMbr, TableOf, Zeros, Used, Start, End, EntryAt;
    TableShape(crc, s);
    Pieces(ProtectiveMbr(Sectors(SIZE, OtherSize(s.ss))), Zeros(s.ss - MBR_BYTES),
           EncodeHeader(TableOf(crc, s).header) + Zeros(s.ss - HEADER_BYTES), s.table + Zeros(s.ss - |s.table|), rest);
  }

  lemma OneSector(n: nat, ss: nat)
    requires SectorSize(ss) && 0 < n <= ss
    ensures RoundUp(n, ss) == ss
  {
  }

  lemma TableIsFound(crc: Checksum, s: Shape, rest: seq<byte>)
    requires Fills(s, rest)
    ensures var d := DiskWith(crc, s, rest);
            && |d| == SIZE && Device(d, s.ss) && Device(d, OtherSize(s.ss))
            && ReadGpt(crc, d, 1, s.ss) == Found(TableOf(crc, s))
  {
    hide EncodeHeader, TableOf, DiskWith, JudgeTable, CheckHeader, ReadGpt, Zeros, RoundUp, Used, Start, End, EntryAt;
    DiskLayout(crc, s, rest);
    TableShape(crc, s);
    HeaderIsAccepted(crc, s);
    TableIsJudged(crc, s);
    OneSector(|s.table|, s.ss);
    var g, d := TableOf(crc, s), DiskWith(crc, s, rest);
    FoundOnDisk(crc, d, Rebuilt(g.header, s.table + Zeros(s.ss - |s.table|)), 1, s.ss, g);
  }

  /** The tool on the device with its other sector size, when there is no table for that one. */
  lemma ToolFindsTable(crc: Checksum, s: Shape, rest: seq<byte>, skipBpb: bool)
    requires Fills(s, rest)
    requires var d, ss := DiskWith(crc, s, rest), OtherSize(s.ss);
             && |d| == SIZE && Device(d, ss)
             && ReadGpt(crc, d, 1, ss).Missing? && ReadGpt(crc, d, Sectors(SIZE, ss) - 1, ss).Missing?
    ensures var d, ss := DiskWith(crc, s, rest), OtherSize(s.ss);
            && Device(d, ss) && Sectors(|d|, ss) >= 6
            && CheckMbr(d[..MBR_BYTES], Sectors(SIZE, ss), skipBpb) == MbrOk(ProtectiveMbr(Sectors(SIZE, ss)))
            && SearchDevice(crc, d, ss, skipBpb) == Find(crc, d, ss) == Foreign(TableOf(crc, s), 1)
  {
    hide ProtectiveMbr, TableOf, DiskWith, ReadGpt, CheckMbr, Used, Start, End, EntryAt;
    var ss := OtherSize(s.ss);
    TableIsFound(crc, s, rest);
    DiskLayout(crc, s, rest);
    ProtectiveMbrPasses(Sectors(SIZE, ss), Sectors(SIZE, ss), skipBpb);
  }

  lemma BlankOtherwise(crc: Checksum, s: Shape)
    requires s.Valid()
    ensures var d, ss := DiskWith(crc, s, Zeros(SIZE - 3 * s.ss)), OtherSize(s.ss);
            && |d| == SIZE && Device(d, ss)
            && ReadGpt(crc, d, 1, ss).Missing? && ReadGpt(crc, d, Sectors(SIZE, ss) - 1, ss).Missing?
  {
    hide ProtectiveMbr, TableOf, DiskWith, ReadGpt, Used, Start, End, EntryAt;
    var rest, ss := Zeros(SIZE - 3 * s.ss), OtherSize(s.ss);
    var d := DiskWith(crc, s, rest);
    DiskLayout(crc, s, rest);
    if s.ss == 4096 {
      assert d[512] == d[512..4096][0];
      assert d[SIZE - 512] == d[3 * 4096..][SIZE - 512 - 3 * 4096];
    } else {
      assert d[4096] == d[3 * 512..][4096 - 3 * 512];
      assert d[SIZE - 4096] == d[3 * 512..][SIZE - 4096 - 3 * 512];
    }
    BlankSectorNoTable(crc, d, 1, ss);
    BlankSectorNoTable(crc, d, Sectors(SIZE, ss) - 1, ss);
  }

  lemma TableIsRebuildable(crc: Checksum, s: Shape)
    requires s.Valid() && s.Ordered()
    ensures var g := TableOf(crc, s); g.Valid() && Sane(g, 1) && Rebuildable(g, SIZE)
  {
    hide TableOf, Rebuildable, TablePlaced, ReadGpt, DiskWith, Used, Start, End, EntryAt;
    TableShape(crc, s);
    TableIsFound(crc, s, Zeros(SIZE - 3 * s.ss));
    FoundIsRebuildable(crc, DiskWith(crc, s, Zeros(SIZE - 3 * s.ss)), 1, s.ss, TableOf(crc, s));
  }

  /** Entries i and j reach lowest and highest. */
  lemma ExtentIs(g: Gpt, i: nat, j: nat)
    requires Rebuildable(g, SIZE) && g.Valid() && i < g.used && j < g.used && UsedAt(g, i) && UsedAt(g, j)
    requires forall k :: 0 <= k < g.used && UsedAt(g, k) ==>
               StartByte(g, i) <= StartByte(g, k) && EndByte(g, k) <= EndByte(g, j)
    ensures DataLo(g) == StartByte(g, i) && DataHi(g) == EndByte(g, j)
  {
    hide Rebuildable, StartByte, EndByte, UsedAt, DataLo, DataHi, Gpt.Valid;
    UsedEntryBounds(g, SIZE, i);
    UsedEntryBounds(g, SIZE, j);
    var lo, hi := DataWitnesses(g, SIZE);
  }

  /** The job that main gives itself on such a device. */
  ghost function JobOn(crc: Checksum, s: Shape): Job
    requires s.Valid()
  {
    Job(crc, TableOf(crc, s), 1, OtherSize(s.ss), SIZE, ProtectiveMbr(Sectors(SIZE, OtherSize(s.ss))))
  }

  lemma RunStarts(crc: Checksum, s: Shape, rest: seq<byte>)
    requires Fills(s, rest) && s.Ordered()
    requires TableOf(crc, s).Valid() && Verdict(TableOf(crc, s), OtherSize(s.ss), SIZE) == Completed
    requires var d := DiskWith(crc, s, rest);
             |d| == SIZE && Device(d, OtherSize(s.ss)) && Find(crc, d, OtherSize(s.ss)) == Foreign(TableOf(crc, s), 1)
    ensures Started(JobOn(crc, s), DiskWith(crc, s, rest))
  {
    hide TableOf, DiskWith, ProtectiveMbr, ReadGpt, Find, Started, Verdict, Used, Start, End, EntryAt;
    TableIsRebuildable(crc, s);
    ForeignTableStartsJob(crc, DiskWith(crc, s, rest), OtherSize(s.ss), TableOf(crc, s), 1,
                          ProtectiveMbr(Sectors(SIZE, OtherSize(s.ss))));
  }

  lemma StartedParts(job: Job, d: Disk)
    requires Started(job, d)
    ensures Device(d, job.ss) && Device(d, job.g.sectorSize)
  {
  }

  // ----- Tables with one entry -----

  function Plain(start: uint64, end: uint64): Entry {
    WithRange([1] + Zeros(127), start, end)
  }

  lemma PlainFacts(start: uint64, end: uint64)
    ensures var e := Plain(start, end); Used(e) && Start(e) == start && End(e) == end && EntryAt(e, 0) == e
  {
    assert ([1] + Zeros(127))[..16][0] == 1;
  }

  /** Bytes 12288 .. 16384, in 512-byte sectors. */
  function Small(): Shape {
    Shape(Plain(24, 31), 24, 31, HEADER_BYTES, 512)
  }

  /** Bytes 12288 .. 61440, in 4096-byte sectors: all that a header of one sector behind them leaves. */
  function Tight(headerSize: uint32): Shape {
    Shape(Plain(3, 14), 3, 14, headerSize, 4096)
  }

  lemma OneEntryFacts(crc: Checksum, s: Shape, start: uint64, end: uint64)
    requires s.table == Plain(start, end) && SectorSize(s.ss) && 3 <= s.first <= s.last
    requires s.first <= start && end <= s.last
    requires Span(s.last + 2, s.ss) <= SIZE && HEADER_BYTES <= s.headerSize <= s.ss
    ensures s.Valid() && s.Count() == 1 && (start <= end ==> s.Ordered())
    ensures var g := TableOf(crc, s);
            && g.Valid() && g.used == 1 && UsedAt(g, 0)
            && StartByte(g, 0) == Span(start, s.ss) && EndByte(g, 0) == Span(end + 1, s.ss)
  {
    hide Used, Start, End, EntryAt, TableOf, Plain;
    PlainFacts(start, end);
    TableShape(crc, s);
  }

  lemma OneEntryExtent(crc: Checksum, s: Shape, start: uint64, end: uint64)
    requires s.table == Plain(start, end) && SectorSize(s.ss) && 3 <= s.first <= start <= end <= s.last
    requires Span(s.last + 2, s.ss) <= SIZE && HEADER_BYTES <= s.headerSize <= s.ss
    ensures s.Valid() && s.Ordered()
    ensures var g := TableOf(crc, s);
            && g.Valid() && Rebuildable(g, SIZE) && g.header.headerSize == s.headerSize && g.used == 1
            && DataLo(g) == Span(start, s.ss) && DataHi(g) == Span(end + 1, s.ss)
            && forall ss | SectorSize(ss) && Aligned(Span(start, s.ss), ss) && Aligned(Span(end + 1, s.ss), ss) ::
                 AlignedEntries(g, ss, 1)
  {
    hide TableOf, Rebuildable, DataLo, DataHi, UsedAt, StartByte, EndByte, Plain, Shape.Valid, Shape.Ordered, Gpt.Valid;
    OneEntryFacts(crc, s, start, end);
    TableShape(crc, s);
    TableIsRebuildable(crc, s);
    ExtentIs(TableOf(crc, s), 0, 0);
  }

  lemma SmallVerdict(crc: Checksum)
    ensures Small().Valid() && Small().Ordered()
    ensures TableOf(crc, Small()).Valid() && Verdict(TableOf(crc, Small()), 4096, SIZE) == Completed
  {
    hide TableOf, Rebuildable, DataLo, DataHi, Plain, Shape.Valid, Shape.Ordered;
    OneEntryExtent(crc, Small(), 24, 31);
  }

  /** Header sizes up to 4096 are legal with 4096-byte sectors; those above 512 stop the conversion. */
  lemma TightVerdict(crc: Checksum, headerSize: uint32)
    requires HEADER_BYTES <= headerSize <= 4096
    ensures Tight(headerSize).Valid() && Tight(headerSize).Ordered()
    ensures var g := TableOf(crc, Tight(headerSize));
            && g.Valid() && Convertible(g, 512, SIZE) && !Fits(g, 4096, SIZE, g.used)
            && Verdict(g, 512, SIZE) == if headerSize <= 512 then Completed else AssertFails
  {
    hide TableOf, Rebuildable, DataLo, DataHi, Plain, Shape.Valid, Shape.Ordered;
    OneEntryExtent(crc, Tight(headerSize), 3, 14);
  }

  /** The device with this table and nothing else. */
  function DiskOf(crc: Checksum, s: Shape): Disk
    requires s.Valid()
  {
    DiskWith(crc, s, Zeros(SIZE - 3 * s.ss))
  }

  lemma DeviceWorks(crc: Checksum, s: Shape, skipBpb: bool)
    requires s.Valid() && s.Ordered()
    ensures var d, ss := DiskOf(crc, s), OtherSize(s.ss);
            && |d| == SIZE && Device(d, ss) && Sectors(|d|, ss) >= 6
            && CheckMbr(d[..MBR_BYTES], Sectors(SIZE, ss), skipBpb) == MbrOk(ProtectiveMbr(Sectors(SIZE, ss)))
            && SearchDevice(crc, d, ss, skipBpb) == Find(crc, d, ss) == Foreign(TableOf(crc, s), 1)
    ensures TableOf(crc, s).Valid() && TableOf(crc, s).sectorSize == s.ss && Sane(TableOf(crc, s), 1)
    ensures Verdict(TableOf(crc, s), OtherSize(s.ss), SIZE) == Completed ==> Started(JobOn(crc, s), DiskOf(crc, s))
  {
    hide TableOf, DiskWith, ProtectiveMbr, ReadGpt, Find, Started, Verdict, SearchDevice, CheckMbr, Shape.Valid,
         Shape.Ordered, JobOn;
    ShapeSize(s);
    BlankOtherwise(crc, s);
    ToolFindsTable(crc, s, Zeros(SIZE - 3 * s.ss), skipBpb);
    TableIsRebuildable(crc, s);
    TableShape(crc, s);
    if Verdict(TableOf(crc, s), OtherSize(s.ss), SIZE) == Completed {
      RunStarts(crc, s, Zeros(SIZE - 3 * s.ss));
    }
  }

  lemma ShapeSize(s: Shape)
    requires s.Valid()
    ensures SectorSize(s.ss)
  {
  }

  /** For every checksum function there are devices on which the tool starts a fix run, in each direction. */
  lemma FixRunsExist(crc: Checksum, skipBpb: bool) returns (narrow: Job, d: Disk, wide: Job, d': Disk)
    ensures narrow.crc == wide.crc == crc
    ensures Started(narrow, d) && narrow.g.sectorSize == 4096 && narrow.ss == 512
    ensures Started(wide, d') && wide.g.sectorSize == 512 && wide.ss == 4096
    ensures Sectors(|d|, 512) >= 6 && SearchDevice(crc, d, 512, skipBpb) == Foreign(narrow.g, narrow.source)
    ensures Sectors(|d'|, 4096) >= 6 && SearchDevice(crc, d', 4096, skipBpb) == Foreign(wide.g, wide.source)
  {
    hide TableOf, DiskOf, Started, SearchDevice, Find, Verdict, Shape.Valid, Shape.Ordered, Plain;
    TightVerdict(crc, HEADER_BYTES);
    SmallVerdict(crc);
    narrow, d := JobOn(crc, Tight(HEADER_BYTES)), DiskOf(crc, Tight(HEADER_BYTES));
    wide, d' := JobOn(crc, Small()), DiskOf(crc, Small());
    DeviceWorks(crc, Tight(HEADER_BYTES), skipBpb);
    DeviceWorks(crc, Small(), skipBpb);
    StartedParts(narrow, d);
    StartedParts(wide, d');
  }

  /** A conversion from 4096 to 512 bytes, on a device, that cannot be undone. */
  lemma ReturnCanFail(crc: Checksum, skipBpb: bool) returns (job: Job, d: Disk)
    ensures Started(job, d) && job.crc == crc && job.g.sectorSize == 4096 && job.ss == 512
    ensures Sectors(|d|, 512) >= 6 && SearchDevice(crc, d, 512, skipBpb) == Foreign(job.g, 1)
    ensures CopyOf(job, 1) && CopyAsRead(job, 1).Valid()
    ensures Verdict(CopyAsRead(job, 1), 4096, job.size) == ExitsWith(EXIT_CONSTRAINT)
  {
    hide TableOf, DiskOf, SearchDevice, Find, Fits, CopyAsRead, Job.Valid, ReadGpt, Shape.Valid, Shape.Ordered, Plain;
    var s := Tight(HEADER_BYTES);
    TightVerdict(crc, HEADER_BYTES);
    job, d := JobOn(crc, s), DiskOf(crc, s);
    DeviceWorks(crc, s, skipBpb);
    TableShape(crc, s);
    ConvertingBackVerdict(job, 1);
    CopyHeaderFields(job, 1);
  }

  /** A sane, convertible table on a device that stops the tool at the assertion of line 789, for every header size
      that is legal with 4096-byte sectors only. */
  lemma AssertionCanFail(crc: Checksum, headerSize: uint32, skipBpb: bool) returns (d: Disk, g: Gpt)
    requires 512 < headerSize <= 4096
    ensures Device(d, 512) && Sectors(|d|, 512) >= 6
    ensures SearchDevice(crc, d, 512, skipBpb) == Foreign(g, 1) && g.header.headerSize == headerSize
    ensures g.Valid() && Sane(g, 1) && Convertible(g, 512, |d|) && Verdict(g, 512, |d|) == AssertFails
  {
    hide TableOf, DiskOf, SearchDevice, Find, Fits, AlignedEntries, Shape.Valid, Shape.Ordered, Plain, Sane;
    var s := Tight(headerSize);
    TightVerdict(crc, headerSize);
    d, g := DiskOf(crc, s), TableOf(crc, s);
    DeviceWorks(crc, s, skipBpb);
    TableShape(crc, s);
  }

  /** An entry for the sectors 40 .. 31, in a usable range of 24 .. 40. */
  function Inverted(): Shape {
    Shape(Plain(40, 31), 24, 40, HEADER_BYTES, 512)
  }

  /** What the search lets through without the order of start and end: on this device the tool gets to the rebuild and
      fails the assertion of line 363. */
  lemma OrderAssertionCanFail(crc: Checksum, skipBpb: bool) returns (d: Disk, g: Gpt)
    ensures Device(d, 4096) && Sectors(|d|, 4096) >= 6 && SearchDevice(crc, d, 4096, skipBpb) == Foreign(g, 1)
    ensures g.Valid() && Aligned64(g, 4096, g.used) && First64(g, g.used) >= Last64(g, g.used)
  {
    hide TableOf, DiskWith, SearchDevice, Find, Shape.Valid, Plain, ReadGpt, First64, Last64, Gpt.Valid, Start, End,
         EntryAt, Used;
    var s := Inverted();
    OneEntryFacts(crc, s, 40, 31);
    d, g := DiskWith(crc, s, Zeros(SIZE - 3 * s.ss)), TableOf(crc, s);
    BlankOtherwise(crc, s);
    ToolFindsTable(crc, s, Zeros(SIZE - 3 * s.ss), skipBpb);
    TableShape(crc, s);
    ExactWhenSmall(g, 0);
    OrderAssertionFailsExactly(g);
  }

  lemma ExactWhenSmall(g: Gpt, i: nat)
    requires g.Valid() && i < g.header.entryCount && StartByte(g, i) < TWO64 && EndByte(g, i) < TWO63
    ensures StartBytes64(g, i) == StartByte(g, i) && EndBytes64(g, i) == EndByte(g, i)
  {
    hide EntryAt, Start, End, Used;
  }

  // ----- An entry that looks like a header -----

  /** The header that the entry will look like: its AlternateLBA and FirstUsableLBA are the LBAs of the entry. */
  function FakeHeader(crc: Checksum): Header {
    var h := Header(SIGNATURE, REVISION, HEADER_BYTES, 0, 0, 0, 24, 31, 0, Zeros(16), 0, 0, ENTRY_BYTES + 1, 0);
    h.(headerCrc := crc(EncodeHeader(h)))
  }

  /** The entry after the conversion to 512-byte sectors. */
  function FakeEntry(crc: Checksum): Entry {
    EncodeHeader(FakeHeader(crc)) + Zeros(36)
  }

  lemma FakeFacts(crc: Checksum)
    ensures Used(FakeEntry(crc)) && Start(FakeEntry(crc)) == 24 && End(FakeEntry(crc)) == 31
    ensures Unsupported(crc, FakeEntry(crc))
  {
    hide EncodeHeader, ParseHeader;
    var h, e := FakeHeader(crc), FakeEntry(crc);
    assert ParseHeader(e) == h by {
      ParseEncodeHeader(h, Zeros(36));
    }
    FieldsOfEntry(e);
    assert e[..16][0] == e[..8][0] != 0;
    assert h.(headerCrc := 0)
        == Header(SIGNATURE, REVISION, HEADER_BYTES, 0, 0, 0, 24, 31, 0, Zeros(16), 0, 0, ENTRY_BYTES + 1, 0);
  }

  lemma FieldsOfEntry(e: Entry)
    ensures var h := ParseHeader(e); h.signature == e[..8] && h.alternateLba == Start(e) && h.firstUsable == End(e)
  {
  }

  /** 25 entries in 4096-byte sectors, the last one for bytes 12288 .. 16384. */
  function Masked(crc: Checksum): Shape {
    Shape(Zeros(24 * ENTRY_BYTES) + WithRange(FakeEntry(crc), 3, 3), 3, 3, HEADER_BYTES, 4096)
  }

  lemma MaskedEntries(crc: Checksum)
    ensures var t := Masked(crc).table;
            && |t| == 25 * ENTRY_BYTES && EntryAt(t, 24) == WithRange(FakeEntry(crc), 3, 3) && Used(EntryAt(t, 24))
            && forall i :: 0 <= i < 24 ==> !Used(EntryAt(t, i))
  {
    FakeFacts(crc);
    hide FakeEntry, Start, End, Used;
    PaddedFront(WithRange(FakeEntry(crc), 3, 3));
  }

  /** 24 blank entries in front of e. */
  lemma PaddedFront(e: Entry)
    ensures var t := Zeros(24 * ENTRY_BYTES) + e;
            |t| == 25 * ENTRY_BYTES && EntryAt(t, 24) == e && forall i :: 0 <= i < 24 ==> !Used(EntryAt(t, i))
  {
    var t := Zeros(24 * ENTRY_BYTES) + e;
    forall i | 0 <= i < 24 ensures !Used(EntryAt(t, i)) {
      assert EntryAt(t, i)[..16] == Zeros(16);
    }
  }

  lemma MaskedFacts(crc: Checksum)
    ensures Masked(crc).Valid() && Masked(crc).Ordered() && Masked(crc).Count() == 25
    ensures var g := TableOf(crc, Masked(crc));
            && g.Valid() && g.used == 25 && UsedAt(g, 24) && (forall i :: 0 <= i < 24 ==> !UsedAt(g, i))
            && StartByte(g, 24) == 12288 && EndByte(g, 24) == 16384
  {
    hide FakeEntry, Used, Start, End, EntryAt, TableOf;
    MaskedEntries(crc);
    TableShape(crc, Masked(crc));
  }

  /** A table whose entries are all kept. */
  lemma AllKept(g: Gpt, ss: nat)
    requires Rebuildable(g, SIZE) && g.Valid() && SectorSize(ss) && g.used == g.header.entryCount
    requires g.header.headerSize <= ss && AlignedEntries(g, ss, g.used) && Fits(g, ss, SIZE, g.used)
    ensures Verdict(g, ss, SIZE) == Completed && NewCount(g, ss, SIZE) == g.used
  {
    hide Rebuildable, Gpt.Valid, AlignedEntries, Fits, NewCount;
    CountIsLargestThatFits(g, ss, SIZE);
  }

  lemma MaskedExtent(crc: Checksum)
    ensures Masked(crc).Valid() && Masked(crc).Ordered()
    ensures var g := TableOf(crc, Masked(crc));
            && g.Valid() && Rebuildable(g, SIZE) && g.used == 25 && DataLo(g) == 12288 && DataHi(g) == 16384
            && AlignedEntries(g, 512, 25)
  {
    hide TableOf, Rebuildable, DataLo, DataHi, UsedAt, StartByte, EndByte, Shape.Valid, Shape.Ordered, Gpt.Valid,
         Masked;
    MaskedFacts(crc);
    TableIsRebuildable(crc, Masked(crc));
    ExtentIs(TableOf(crc, Masked(crc)), 24, 24);
  }

  lemma MaskedConverts(crc: Checksum)
    ensures Masked(crc).Valid() && Masked(crc).Ordered()
    ensures var g := TableOf(crc, Masked(crc));
            && g.Valid() && Rebuildable(g, SIZE) && g.used == 25 && Verdict(g, 512, SIZE) == Completed
            && Fits(g, 512, SIZE, g.used) && NewCount(g, 512, SIZE) == 25
  {
    hide TableOf, Rebuildable, DataLo, DataHi, Shape.Valid, Shape.Ordered, Gpt.Valid, AlignedEntries, FakeEntry,
         Verdict, NewCount;
    MaskedExtent(crc);
    TableShape(crc, Masked(crc));
    AllKept(TableOf(crc, Masked(crc)), 512);
  }

  /** The conversion gives the entry the bytes of the fake header. */
  lemma FakeEntryRevealed(crc: Checksum)
    ensures AdjustEntry(WithRange(FakeEntry(crc), 3, 3), 4096, 512) == FakeEntry(crc)
  {
    FakeFacts(crc);
    hide FakeEntry, Start, End, Used;
    var e := WithRange(FakeEntry(crc), 3, 3);
    var r := AdjustEntry(e, 4096, 512);
    AdjustEntryKeepsRest(e, 4096, 512);
    AdjustEntryKeepsRange(e, 4096, 512);
    SameRangeSameEntry(r, FakeEntry(crc));
  }

  lemma MaskedMimics(crc: Checksum)
    requires Masked(crc).Valid() && JobOn(crc, Masked(crc)).Valid()
    ensures MimicAt(JobOn(crc, Masked(crc)), PRIMARY_INDEX)
  {
    hide TableOf, Rebuildable, Shape.Valid, Shape.Ordered, Job.Valid, FakeEntry, AdjustEntry, Unsupported, NewCount,
         EntryAt, Gpt.Valid, Fits, AlignedEntries, Verdict;
    MaskedConverts(crc);
    MaskedEntries(crc);
    var s := Masked(crc);
    TableShape(crc, s);
    AdjustTableAt(TableOf(crc, s), 512, 25, 24);
    FakeEntryRevealed(crc);
    FakeFacts(crc);
  }

  /** A device that is converted to 512-byte sectors and then, with 4096-byte sectors again, stops the tool with
      EXIT_UNSUPPORTED. */
  lemma ReturnCanBeBlocked(crc: Checksum, skipBpb: bool) returns (job: Job, d: Disk)
    ensures Started(job, d) && job.crc == crc && job.g.sectorSize == 4096 && job.ss == 512
    ensures Sectors(|d|, 512) >= 6 && SearchDevice(crc, d, 512, skipBpb) == Foreign(job.g, 1)
    ensures Mimicry(job) && AllFit(FixWrites(job), |d|)
    ensures var r := ApplyAll(d, FixWrites(job));
            && Device(r, 4096) && Sectors(|r|, 4096) >= 6
            && SearchDevice(crc, r, 4096, skipBpb) == SearchExit(EXIT_UNSUPPORTED)
  {
    hide TableOf, DiskOf, SearchDevice, Find, Shape.Valid, Shape.Ordered, Job.Valid, FixWrites, ApplyAll, AllFit,
         Verdict, MimicAt, ReadGpt, CheckMbr, ProtectiveMbr;
    var s := Masked(crc);
    MaskedConverts(crc);
    job, d := JobOn(crc, s), DiskOf(crc, s);
    DeviceWorks(crc, s, skipBpb);
    FixWritesFit(job);
    MaskedMimics(crc);
    var mbr := ToolAfterRun(job, d, skipBpb);
  }

  // ----- A stale header -----

  /** Two partitions in 512-byte sectors, bytes 12288 .. 16384 and 16384 .. 20480. */
  function Pair(): Shape {
    Shape(Plain(24, 31) + Plain(32, 39), 24, 39, HEADER_BYTES, 512)
  }

  /** A header for 4096-byte sectors whose table is the first of them, as it will be after the conversion. */
  function StaleShape(): Shape {
    Shape(Plain(3, 3), 3, 4, HEADER_BYTES, 4096)
  }

  /** Behind the table of Pair: the stale header at 4096, and at 8192 an entry that starts at sector 0. */
  function StaleRest(crc: Checksum): seq<byte>
    requires StaleShape().Valid()
  {
    Zeros(2560) + (EncodeHeader(TableOf(crc, StaleShape()).header) + Zeros(4004))
    + Plain(0, 0) + Zeros(SIZE - 8192 - ENTRY_BYTES)
  }

  lemma PairEntries()
    ensures var t := Pair().table;
            && |t| == 2 * ENTRY_BYTES && EntryAt(t, 0) == Plain(24, 31) && EntryAt(t, 1) == Plain(32, 39)
            && Used(EntryAt(t, 0)) && Used(EntryAt(t, 1))
            && Start(EntryAt(t, 0)) == 24 && End(EntryAt(t, 0)) == 31
            && Start(EntryAt(t, 1)) == 32 && End(EntryAt(t, 1)) == 39
  {
    PlainFacts(24, 31);
    PlainFacts(32, 39);
    hide Used, Start, End, Plain;
    var t := Pair().table;
    assert EntryAt(t, 0) == Plain(24, 31) && EntryAt(t, 1) == Plain(32, 39);
  }

  lemma PairFacts(crc: Checksum)
    ensures Pair().Valid() && Pair().Ordered() && Pair().Count() == 2
    ensures var g := TableOf(crc, Pair());
            && g.Valid() && g.used == 2 && UsedAt(g, 0) && UsedAt(g, 1) && EntryAt(g.table, 0) == Plain(24, 31)
            && StartByte(g, 0) == 12288 && EndByte(g, 0) == 16384 == StartByte(g, 1) && EndByte(g, 1) == 20480
  {
    hide Used, Start, End, TableOf, Plain, EntryAt;
    PairEntries();
    assert Pair().Valid();
    TableShape(crc, Pair());
  }

  lemma PairExtent(crc: Checksum)
    ensures Pair().Valid() && Pair().Ordered()
    ensures var g := TableOf(crc, Pair());
            && g.Valid() && Rebuildable(g, SIZE) && g.used == 2 && DataLo(g) == 12288 && DataHi(g) == 20480
            && AlignedEntries(g, 4096, 2)
  {
    hide TableOf, Rebuildable, DataLo, DataHi, UsedAt, StartByte, EndByte, Shape.Valid, Shape.Ordered, Gpt.Valid, Pair,
         EntryAt, Plain;
    PairFacts(crc);
    TableIsRebuildable(crc, Pair());
    ExtentIs(TableOf(crc, Pair()), 0, 1);
  }

  lemma PairConverts(crc: Checksum)
    ensures Pair().Valid() && Pair().Ordered()
    ensures var g := TableOf(crc, Pair());
            && g.Valid() && Rebuildable(g, SIZE) && g.used == 2 && Verdict(g, 4096, SIZE) == Completed
            && Fits(g, 4096, SIZE, g.used) && NewCount(g, 4096, SIZE) == 2
  {
    hide TableOf, Rebuildable, DataLo, DataHi, Shape.Valid, Shape.Ordered, Gpt.Valid, AlignedEntries, Plain, Verdict,
         NewCount;
    PairExtent(crc);
    TableShape(crc, Pair());
    AllKept(TableOf(crc, Pair()), 4096);
  }

  lemma StaleFacts(crc: Checksum)
    ensures StaleShape().Valid()
    ensures var h := TableOf(crc, StaleShape()).header;
            && h.WellFormed() && h.entrySize == ENTRY_BYTES && h.entryCount == 1 && h.entryLba == 2
            && h.firstUsable == 3 && h.lastUsable == 4 && h.tableCrc == crc(Plain(3, 3))
            && CheckHeader(crc, h, 1, 4096, Sectors(SIZE, 4096)).Accepted?
  {
    hide TableOf, Plain, Shape.Valid, CheckHeader;
    OneEntryFacts(crc, StaleShape(), 3, 3);
    TableShape(crc, StaleShape());
    HeaderIsAccepted(crc, StaleShape());
    StaleEntrySize(crc);
  }

  lemma StaleEntrySize(crc: Checksum)
    requires StaleShape().Valid()
    ensures TableOf(crc, StaleShape()).header.entrySize == ENTRY_BYTES
    ensures TableOf(crc, StaleShape()).header.WellFormed()
  {
    hide Shape.Valid, EncodeHeader;
  }

  /** What is where on the device. */
  lemma StaleLayout(crc: Checksum)
    ensures StaleShape().Valid() && Pair().Valid() && Fills(Pair(), StaleRest(crc))
    ensures var d := DiskWith(crc, Pair(), StaleRest(crc));
            && |d| == SIZE
            && d[4096..8192] == EncodeHeader(TableOf(crc, StaleShape()).header) + Zeros(4004)
            && d[8192..8192 + ENTRY_BYTES] == Plain(0, 0) && d[SIZE - 4096] == 0
  {
    hide TableOf, Plain, EncodeHeader, DiskWith, Shape.Ordered, Gpt.Valid;
    StaleFacts(crc);
    PairFacts(crc);
    hide Shape.Valid;
    var a, b := Zeros(2560), EncodeHeader(TableOf(crc, StaleShape()).header) + Zeros(4004);
    var x, z := Plain(0, 0), Zeros(SIZE - 8192 - ENTRY_BYTES);
    Pieces([], a, b, x, z);
    assert [] + a + b + x + z == StaleRest(crc);
    var rest, d := StaleRest(crc), DiskWith(crc, Pair(), StaleRest(crc));
    DiskLayout(crc, Pair(), rest);
    assert d[1536..|d|] == rest;
    SliceOfSlice(d, 1536, |d|, 2560, 6656);
    SliceOfSlice(d, 1536, |d|, 6656, 6656 + ENTRY_BYTES);
    assert d[SIZE - 4096] == rest[SIZE - 4096 - 1536] == z[SIZE - 4096 - 8192 - ENTRY_BYTES];
  }

  lemma StaleIsPassedOver(crc: Checksum)
    ensures Pair().Valid() && StaleShape().Valid()
    ensures var d := DiskWith(crc, Pair(), StaleRest(crc));
            && |d| == SIZE && Device(d, 4096)
            && HeaderAt(d, 1, 4096) == TableOf(crc, StaleShape()).header
            && ReadGpt(crc, d, 1, 4096).Missing? && ReadGpt(crc, d, 15, 4096).Missing?
  {
    hide TableOf, Plain, EncodeHeader, DiskWith, Shape.Valid, ParseHeader, CheckHeader, StaleRest, Pair, StaleShape;
    StaleLayout(crc);
    StaleFacts(crc);
    PairFacts(crc);
    var d, h := DiskWith(crc, Pair(), StaleRest(crc)), TableOf(crc, StaleShape()).header;
    ParseEncodeHeader(h, Zeros(4004));
    assert SectorAt(d, 1, 4096) == d[4096..8192];
    BlankSectorNoTable(crc, d, 15, 4096);
    PlainFacts(0, 0);
    var t := d[8192..8192 + ENTRY_BYTES];
    assert EntryAt(t, 0) == t == Plain(0, 0);
    assert !EntriesUsable(h, t, 1);
  }

  lemma PlainAdjusted()
    ensures AdjustEntry(Plain(24, 31), 512, 4096) == Plain(3, 3)
  {
    PlainFacts(24, 31);
    PlainFacts(3, 3);
    hide Start, End, Used;
    var e := Plain(24, 31);
    AdjustEntryKeepsRest(e, 512, 4096);
    AdjustEntryKeepsRange(e, 512, 4096);
    SameRangeSameEntry(AdjustEntry(e, 512, 4096), Plain(3, 3));
  }

  /** The new table begins with the entry that the stale header has the checksum of. */
  lemma NewTableBegins(crc: Checksum)
    requires Pair().Valid() && JobOn(crc, Pair()).Valid()
    ensures var entries := NewCopy(JobOn(crc, Pair()), 1).entries;
            |entries| >= ENTRY_BYTES && entries[..ENTRY_BYTES] == Plain(3, 3)
  {
    hide TableOf, Rebuildable, Shape.Valid, Shape.Ordered, AdjustEntry, NewCount, Gpt.Valid, Fits, AlignedEntries,
         Verdict, TablePlaced, NewHeader, Plain;
    PairConverts(crc);
    PairFacts(crc);
    var g := TableOf(crc, Pair());
    TableShape(crc, Pair());
    CountFits(g, 4096, SIZE);
    AdjustTableAt(g, 4096, 2, 0);
    PlainAdjusted();
    var table, entries := NewTable(g, 4096, SIZE), NewCopy(JobOn(crc, Pair()), 1).entries;
    assert entries[..ENTRY_BYTES] == table[..ENTRY_BYTES] == EntryAt(table, 0);
  }

  /** After five of the six writes, the stale header is intact and the new table lies behind it. */
  lemma AfterFiveWrites(job: Job, d: Disk)
    requires job.Valid() && job.ss == 4096 && job.source == 1 && |d| == job.size && AllFit(FixWrites(job), |d|)
    requires |NewCopy(job, 1).entries| >= ENTRY_BYTES
    ensures |FixWrites(job)| == 6 && |d| >= 8192 + ENTRY_BYTES
    ensures AllAvoid(FixWrites(job)[..5], 4096, 8192) && PrimaryOpen(job, 5)
    ensures AfterCrash(d, FixWrites(job), 5)[8192..8192 + ENTRY_BYTES] == NewCopy(job, 1).entries[..ENTRY_BYTES]
  {
    hide Gpt.Valid, Rebuildable, Convertible, TablePlaced, CreateWrites, NewCopy, ApplyAll, DataLo, DataHi,
         EncodeHeader;
    RebuildableNumbers(job.g, job.size);
    DataOnBigGrid(job);
    PrimaryWrites(job);
    BackupWrites(job);
    BackupAboveData(job);
    var a, b := CreateWrites(job, job.FirstOffset()), CreateWrites(job, job.SecondOffset());
    var ws := FixWrites(job)[..5];
    assert ws[3] == b[0] && ws[4] == b[1] && forall i :: 0 <= i < 3 ==> ws[i] == a[i];
    LastCover(d, ws, 4, 8192, 8192 + ENTRY_BYTES);
  }

  lemma StaleMatches(crc: Checksum, r: Disk)
    requires StaleShape().Valid() && |r| == SIZE && r[8192..8192 + ENTRY_BYTES] == Plain(3, 3)
    requires TableOf(crc, StaleShape()).header.WellFormed()
    ensures var h := TableOf(crc, StaleShape()).header;
            && Matches(crc, r, h, 1, 4096)
            && StaleTable(crc, r, h, 1, 4096) == Found(Gpt(h, Plain(3, 3), 1, 4096))
  {
    hide TableOf, Plain, Shape.Valid, CheckHeader, Start, End, Used, EntryAt;
    StaleFacts(crc);
    PlainFacts(3, 3);
    var h := TableOf(crc, StaleShape()).header;
    assert TableOffset(h, 4096) == 8192 && h.TableBytes() == ENTRY_BYTES;
    UsedCountIs(Plain(3, 3), 1, 1);
  }

  ghost function StaleDisk(crc: Checksum): Disk
    requires Pair().Valid() && StaleShape().Valid()
  {
    DiskWith(crc, Pair(), StaleRest(crc))
  }

  lemma StaleDeviceStarts(crc: Checksum, skipBpb: bool)
    ensures Pair().Valid() && StaleShape().Valid()
    ensures var job, d := JobOn(crc, Pair()), StaleDisk(crc);
            && Started(job, d) && |d| == SIZE && Device(d, 4096) && Sectors(|d|, 4096) >= 6 && job.ss == 4096
            && CheckMbr(d[..MBR_BYTES], Sectors(SIZE, 4096), skipBpb) == MbrOk(job.mbr)
            && SearchDevice(crc, d, 4096, skipBpb) == Foreign(job.g, 1) && job.g.used == 2
  {
    hide TableOf, DiskWith, SearchDevice, Find, Shape.Valid, Shape.Ordered, Started, Verdict, ReadGpt, CheckMbr,
         ProtectiveMbr, StaleRest, Plain, Gpt.Valid;
    PairConverts(crc);
    StaleLayout(crc);
    StaleIsPassedOver(crc);
    ToolFindsTable(crc, Pair(), StaleRest(crc), skipBpb);
    RunStarts(crc, Pair(), StaleRest(crc));
  }

  lemma StaleIsRevived(crc: Checksum)
    requires Pair().Valid() && StaleShape().Valid() && |StaleDisk(crc)| == SIZE && Device(StaleDisk(crc), 4096)
    requires JobOn(crc, Pair()).Valid() && AllFit(FixWrites(JobOn(crc, Pair())), SIZE)
    ensures var job, d := JobOn(crc, Pair()), StaleDisk(crc);
            && |FixWrites(job)| == 6 && PrimaryOpen(job, 5) && Revived(job, d, 5, 1)
            && StaleAt(job, d, 5, 1) == Current(Gpt(TableOf(crc, StaleShape()).header, Plain(3, 3), 1, 4096))
  {
    hide TableOf, DiskWith, Shape.Valid, Shape.Ordered, Job.Valid, FixWrites, ApplyAll, AllFit, ReadGpt, ProtectiveMbr,
         StaleRest, Plain, NewCopy, Matches, StaleTable, HeaderAt, AfterCrash, AllAvoid, PrimaryOpen, CheckHeader;
    StaleIsPassedOver(crc);
    StaleFacts(crc);
    NewTableBegins(crc);
    AfterFiveWrites(JobOn(crc, Pair()), StaleDisk(crc));
    StaleMatches(crc, AfterCrash(StaleDisk(crc), FixWrites(JobOn(crc, Pair())), 5));
  }

  /** A device on which a crash before the last write costs a partition: run again, the tool takes the stale header for
      the table of its own sector size, which knows only the first of the two partitions, and has nothing to fix. */
  lemma PartitionCanBeLost(crc: Checksum, skipBpb: bool) returns (job: Job, d: Disk, stale: Gpt)
    ensures Started(job, d) && job.crc == crc && AllFit(FixWrites(job), |d|) && |FixWrites(job)| == 6
    ensures Sectors(job.size, job.ss) >= 6 && SearchDevice(crc, d, job.ss, skipBpb) == Foreign(job.g, job.source)
    ensures Obstructed(job, d, 5)
    ensures SearchDevice(crc, AfterCrash(d, FixWrites(job), 5), job.ss, skipBpb) == Current(stale)
    ensures job.g.used == 2 && stale.used == 1 && !SamePartitions(job.g, stale)
  {
    hide TableOf, StaleDisk, SearchDevice, Find, Shape.Valid, Shape.Ordered, Job.Valid, FixWrites, ApplyAll, AllFit,
         ReadGpt, CheckMbr, ProtectiveMbr, Plain, CreateWrites, Revived, StaleAt, Expected, AfterCrash, PrimaryOpen;
    StaleDeviceStarts(crc, skipBpb);
    job, d := JobOn(crc, Pair()), StaleDisk(crc);
    FixWritesFit(job);
    StaleIsRevived(crc);
    stale := Gpt(TableOf(crc, StaleShape()).header, Plain(3, 3), 1, 4096);
    ToolRecovers(job, d, 5, skipBpb);
  }
}
