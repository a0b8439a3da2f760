/** Finding a table on the device: check_gpt_header and read_and_check_gpt. */
module GptCheck {
  import opened Bytes
  import opened GptFormat

  const EXIT_SUCCESS := 0
  const EXIT_IO := 2
  const EXIT_UNSUPPORTED := 3
  const EXIT_NOT_PARTITIONED := 4
  const EXIT_INVALID_GPT := 5
  const EXIT_CONSTRAINT := 6
  const EXIT_TRUNCATED := 8

  const MAX_TABLE_BYTES := 0x10_0000

  /** zlib's crc32 over a buffer; every result holds for any such function. */
  type Checksum = seq<byte> -> uint32

  datatype HeaderCheck = Accepted(tableBytes: nat) | Rejected | HeaderExit(code: int)

  /** The checksum check_gpt_header expects: all 92 bytes, with the checksum field zero. */
  function HeaderChecksum(crc: Checksum, h: Header): uint32
    requires h.WellFormed()
  {
    crc(EncodeHeader(h.(headerCrc := 0)))
  }

  /** Sectors the table may occupy, when the LBAs are consistent for this position. */
  function TableSectors(h: Header, off: nat): int {
    if off != 1 then h.myLba - h.entryLba else h.firstUsable - h.entryLba
  }

  /** check_gpt_header, tests in source order. A wrong MyLBA only warns, so it does not appear. */
  function CheckHeader(crc: Checksum, h: Header, off: nat, ss: nat, sectors: nat): HeaderCheck
    requires h.WellFormed() && SectorSize(ss)
  {
    if h.signature != SIGNATURE then Rejected
    else if h.revision != REVISION then Rejected
    else if h.headerCrc != HeaderChecksum(crc, h) then Rejected
    else if h.headerSize < HEADER_BYTES || h.headerSize > ss then Rejected
    else if h.entrySize < ENTRY_BYTES || h.entrySize > ss then Rejected
    else if h.entrySize > ENTRY_BYTES then HeaderExit(EXIT_UNSUPPORTED)
    else if h.firstUsable < 3 then Rejected
    else if h.lastUsable < h.firstUsable then Rejected
    else if off != 1 && (h.alternateLba != 1 || h.lastUsable >= h.entryLba || h.entryLba >= h.myLba) then Rejected
    else if off == 1 && (h.entryLba != 2 || h.lastUsable >= h.alternateLba) then Rejected
    else if off == 1 && h.alternateLba >= sectors then HeaderExit(EXIT_TRUNCATED)
    else if h.entryCount < 1 then Rejected
    else if U64(Span(TableSectors(h, off), ss)) < h.TableBytes() then Rejected
    else if h.TableBytes() > MAX_TABLE_BYTES then HeaderExit(EXIT_UNSUPPORTED)
    else Accepted(h.TableBytes())
  }

  /** Index after the last used entry among the first n; 0 if there is none. */
  function UsedCount(table: seq<byte>, n: nat): (k: nat)
    requires ENTRY_BYTES * n <= |table|
    ensures k <= n
    ensures forall i :: k <= i < n ==> !Used(EntryAt(table, i))
    ensures k > 0 ==> Used(EntryAt(table, k - 1))
  {
    if n == 0 then 0
    else if Used(EntryAt(table, n - 1)) then n
    else UsedCount(table, n - 1)
  }

  /** Every used entry lies inside the usable range of the header. */
  predicate EntriesUsable(h: Header, table: seq<byte>, n: nat)
    requires ENTRY_BYTES * n <= |table|
  {
    forall i :: 0 <= i < n && Used(EntryAt(table, i)) ==>
      h.firstUsable <= Start(EntryAt(table, i)) && End(EntryAt(table, i)) <= h.lastUsable
  }

  datatype Lookup = Found(gpt: Gpt) | Missing | Exit(code: int) | Abort

  /** What read_and_check_gpt makes of a header that passed and the table bytes it points to. */
  function JudgeTable(crc: Checksum, h: Header, table: seq<byte>, ss: nat): (r: Lookup)
    requires SectorSize(ss) && h.WellFormed() && h.entrySize == ENTRY_BYTES
    requires ENTRY_BYTES * h.entryCount == |table|
    ensures !r.Abort?
    ensures r.Found? ==> r.gpt.Valid() && r.gpt.sectorSize == ss
    ensures r.Found? ==> EntriesUsable(r.gpt.header, r.gpt.table, r.gpt.header.entryCount)
  {
    if h.tableCrc != crc(table) then Missing
    else if !EntriesUsable(h, table, h.entryCount) then Missing
    else
      var used := UsedCount(table, h.entryCount);
      if used == 0 then Exit(EXIT_UNSUPPORTED) else Found(Gpt(h, table, used, ss))
  }

  function TableOffset(h: Header, ss: nat): uint64
    requires SectorSize(ss)
  {
    U64(Span(h.entryLba, ss))
  }

  /** Reading the entry array: err(EXIT_SUCCESS) for an offset pread refuses, EXIT_IO for a short read. */
  function ReadTable(crc: Checksum, d: Disk, h: Header, ss: nat): (r: Lookup)
    requires SectorSize(ss) && h.WellFormed() && h.entrySize == ENTRY_BYTES
    ensures !r.Abort?
    ensures r.Found? ==> r.gpt.Valid() && r.gpt.sectorSize == ss
    ensures r.Found? ==> EntriesUsable(r.gpt.header, r.gpt.table, r.gpt.header.entryCount)
  {
    var at := TableOffset(h, ss);
    if at >= TWO63 then Exit(EXIT_SUCCESS)
    else if at + RoundUp(h.TableBytes(), ss) > |d| then Exit(EXIT_IO)
    else JudgeTable(crc, h, d[at..at + h.TableBytes()], ss)
  }

  /** The device is a whole number of sectors. */
  predicate Device(d: Disk, ss: nat) {
    SectorSize(ss) && Aligned(|d|, ss)
  }

  function SectorAt(d: Disk, off: nat, ss: nat): (b: seq<byte>)
    requires Device(d, ss) && off < Sectors(|d|, ss)
    ensures |b| == ss
  {
    d[Span(off, ss)..Span(off, ss) + ss]
  }

  /** read_and_check_gpt. With fewer than 6 sectors the assertion in check_gpt_header aborts. */
  function ReadGpt(crc: Checksum, d: Disk, off: nat, ss: nat): (r: Lookup)
    requires Device(d, ss)
    ensures r.Found? ==> r.gpt.Valid() && r.gpt.sectorSize == ss
    ensures r.Found? ==> EntriesUsable(r.gpt.header, r.gpt.table, r.gpt.header.entryCount)
  {
    var sectors := Sectors(|d|, ss);
    if off >= sectors then Missing
    else if off != 1 && off < 5 then Missing
    else if sectors < 6 then Abort
    else
      var h := ParseHeader(SectorAt(d, off, ss));
      match CheckHeader(crc, h, off, ss, sectors)
      case Rejected => Missing
      case HeaderExit(code) => Exit(code)
      case Accepted(_) => ReadTable(crc, d, h, ss)
  }

  /** A found table was accepted at its position and then read. */
  lemma FoundParts(crc: Checksum, d: Disk, off: nat, ss: nat, g: Gpt)
    requires Device(d, ss) && ReadGpt(crc, d, off, ss) == Found(g)
    ensures (off == 1 || off >= 5) && off < Sectors(|d|, ss) && Sectors(|d|, ss) >= 6
    ensures g.header.WellFormed() && g.header.entrySize == ENTRY_BYTES
    ensures g.header == ParseHeader(SectorAt(d, off, ss))
    ensures CheckHeader(crc, g.header, off, ss, Sectors(|d|, ss)).Accepted?
    ensures ReadTable(crc, d, g.header, ss) == Found(g)
  {
  }

  lemma FoundFrom(crc: Checksum, d: Disk, off: nat, ss: nat, g: Gpt)
    requires Device(d, ss)
    requires (off == 1 || off >= 5) && off < Sectors(|d|, ss) && Sectors(|d|, ss) >= 6
    requires g.header == ParseHeader(SectorAt(d, off, ss))
    requires CheckHeader(crc, g.header, off, ss, Sectors(|d|, ss)).Accepted?
    requires ReadTable(crc, d, g.header, ss) == Found(g)
    ensures ReadGpt(crc, d, off, ss) == Found(g)
  {
  }

  lemma SameSector(d: Disk, d': Disk, off: nat, ss: nat)
    requires Device(d, ss) && |d'| == |d| && off < Sectors(|d|, ss)
    requires SectorAt(d', off, ss) == SectorAt(d, off, ss)
    ensures ParseHeader(SectorAt(d', off, ss)) == ParseHeader(SectorAt(d, off, ss))
  {
  }

  lemma SameTable(crc: Checksum, d: Disk, d': Disk, h: Header, ss: nat)
    requires SectorSize(ss) && |d'| == |d| && h.WellFormed() && h.entrySize == ENTRY_BYTES
    requires var at := TableOffset(h, ss);
             at + h.TableBytes() <= |d| && d'[at..at + h.TableBytes()] == d[at..at + h.TableBytes()]
    ensures ReadTable(crc, d', h, ss) == ReadTable(crc, d, h, ss)
  {
  }

  lemma TableOfFound(crc: Checksum, d: Disk, ss: nat, g: Gpt)
    requires SectorSize(ss) && g.header.WellFormed() && g.header.entrySize == ENTRY_BYTES
    requires ReadTable(crc, d, g.header, ss) == Found(g)
    ensures var at := TableOffset(g.header, ss);
            |g.table| == g.header.TableBytes() && at + RoundUp(|g.table|, ss) <= |d|
            && g.table == d[at..at + |g.table|] && g.header.tableCrc == crc(g.table)
  {
  }

  /** The search depends on nothing but the header sector and the table it points to. */
  lemma ReadGptFrame(crc: Checksum, d: Disk, d': Disk, off: nat, ss: nat, g: Gpt)
    requires Device(d, ss) && |d'| == |d|
    requires ReadGpt(crc, d, off, ss) == Found(g)
    requires off < Sectors(|d|, ss) && SectorAt(d', off, ss) == SectorAt(d, off, ss)
    requires var at := TableOffset(g.header, ss);
             at + |g.table| <= |d| && d'[at..at + |g.table|] == d[at..at + |g.table|]
    ensures ReadGpt(crc, d', off, ss) == Found(g)
  {
    hide ReadGpt, CheckHeader, ReadTable, ParseHeader, SectorAt;
    FoundParts(crc, d, off, ss, g);
    TableOfFound(crc, d, ss, g);
    SameSector(d, d', off, ss);
    SameTable(crc, d, d', g.header, ss);
    FoundFrom(crc, d', off, ss, g);
  }

  /** The numeric content of an accepted header. */
  lemma AcceptedFacts(crc: Checksum, h: Header, off: nat, ss: nat, sectors: nat)
    requires h.WellFormed() && SectorSize(ss) && CheckHeader(crc, h, off, ss, sectors).Accepted?
    ensures h.signature == SIGNATURE && h.revision == REVISION
    ensures HEADER_BYTES <= h.headerSize <= ss && h.entrySize == ENTRY_BYTES
    ensures 3 <= h.firstUsable <= h.lastUsable && h.TableBytes() <= MAX_TABLE_BYTES
    ensures off != 1 ==> h.alternateLba == 1 && h.lastUsable < h.entryLba < h.myLba
    ensures off == 1 ==> h.entryLba == 2 && h.lastUsable < h.alternateLba < sectors
    ensures U64(Span(TableSectors(h, off), ss)) >= h.TableBytes()
  {
  }

  lemma FoundFacts(crc: Checksum, d: Disk, off: nat, ss: nat, g: Gpt)
    requires Device(d, ss) && ReadGpt(crc, d, off, ss) == Found(g)
    ensures off < Sectors(|d|, ss)
    ensures g.header.signature == SIGNATURE && g.header.revision == REVISION
    ensures HEADER_BYTES <= g.header.headerSize <= ss && |g.table| <= MAX_TABLE_BYTES
    ensures 3 <= g.header.firstUsable <= g.header.lastUsable
    ensures off != 1 ==> g.header.alternateLba == 1 && g.header.lastUsable < g.header.entryLba < g.header.myLba
    ensures off == 1 ==> g.header.entryLba == 2 && g.header.lastUsable < g.header.alternateLba < Sectors(|d|, ss)
    ensures U64(Span(TableSectors(g.header, off), ss)) >= |g.table|
  {
    FoundParts(crc, d, off, ss, g);
    AcceptedFacts(crc, g.header, off, ss, Sectors(|d|, ss));
  }

  /** The loop of read_and_check_gpt over the used entries. */
  method ScanEntries(h: Header, table: seq<byte>) returns (usable: bool, used: nat)
    requires ENTRY_BYTES * h.entryCount == |table|
    ensures usable == EntriesUsable(h, table, h.entryCount)
    ensures usable ==> used == UsedCount(table, h.entryCount)
  {
    hide Used, Start, End, EntryAt;
    used := 0;
    var i := 0;
    while i < h.entryCount
      invariant 0 <= i <= h.entryCount
      invariant EntriesUsable(h, table, i)
      invariant used == UsedCount(table, i)
    {
      var e := EntryAt(table, i);
      if Used(e) {
        if Start(e) < h.firstUsable {
          return false, used;
        }
        if End(e) > h.lastUsable {
          return false, used;
        }
        used := i + 1;
      }
      i := i + 1;
    }
    usable := true;
  }

  /** What main's checks do not establish about a table that was found: a backup header names its own
      position, and no used entry ends before it starts. */
  predicate Sane(g: Gpt, off: nat)
    requires g.Valid()
  {
    && (off != 1 ==> g.header.myLba == off)
    && (forall i :: 0 <= i < g.used && Used(EntryAt(g.table, i)) ==>
          Start(EntryAt(g.table, i)) <= End(EntryAt(g.table, i)))
  }

  /** The facts about a table that the rebuild relies on, for a device of `size` bytes. */
  predicate Rebuildable(g: Gpt, size: nat) {
    && g.Valid()
    && size % 4096 == 0 && 6 * 4096 <= size < TWO63
    && g.header.signature == SIGNATURE && g.header.revision == REVISION
    && HEADER_BYTES <= g.header.headerSize <= g.sectorSize
    && |g.table| <= MAX_TABLE_BYTES
    && 3 <= g.header.firstUsable <= g.header.lastUsable
    && Span(g.header.lastUsable + 2, g.sectorSize) <= size
    && (forall i :: 0 <= i < g.used && Used(EntryAt(g.table, i)) ==>
          g.header.firstUsable <= Start(EntryAt(g.table, i)) <= End(EntryAt(g.table, i)) <= g.header.lastUsable)
  }

  /** Where the entry array sits relative to the usable range. */
  predicate TablePlaced(g: Gpt, off: nat, size: nat)
    requires g.Valid()
  {
    var ss := g.sectorSize;
    var lo := Span(g.header.entryLba, ss);
    var hi := lo + RoundUp(|g.table|, ss);
    && TableOffset(g.header, ss) == lo && hi <= size
    && (off == 1 ==> lo == Span(2, ss) && hi <= Span(g.header.firstUsable, ss))
    && (off != 1 ==> Span(g.header.lastUsable + 1, ss) <= lo && hi <= Span(off, ss))
  }

  /** A sane table that the search accepts has every property the rebuild needs, and its entry array
      keeps clear of the usable range. */
  lemma FoundIsRebuildable(crc: Checksum, d: Disk, off: nat, ss: nat, g: Gpt)
    requires SectorSize(ss) && |d| % 4096 == 0 && 6 * 4096 <= |d| < TWO63
    requires off == 1 || off == Sectors(|d|, ss) - 1
    requires ReadGpt(crc, d, off, ss) == Found(g)
    requires Sane(g, off)
    ensures Rebuildable(g, |d|)
    ensures TablePlaced(g, off, |d|)
  {
    hide ReadGpt, Rebuildable, TablePlaced;
    FoundFacts(crc, d, off, ss, g);
    NumbersAreRebuildable(g, off, |d|);
    NumbersPlaceTable(g, off, |d|);
  }

  /** What a found table's header says, as numbers. */
  predicate HeaderNumbers(g: Gpt, off: nat, size: nat)
    requires g.Valid()
  {
    var h, ss := g.header, g.sectorSize;
    && h.signature == SIGNATURE && h.revision == REVISION && HEADER_BYTES <= h.headerSize <= ss
    && |g.table| <= MAX_TABLE_BYTES && 3 <= h.firstUsable <= h.lastUsable
    && (off != 1 ==> h.lastUsable < h.entryLba < h.myLba)
    && (off == 1 ==> h.entryLba == 2 && h.lastUsable < h.alternateLba < Sectors(size, ss))
    && U64(Span(TableSectors(h, off), ss)) >= |g.table|
  }

  lemma NumbersAreRebuildable(g: Gpt, off: nat, size: nat)
    requires g.Valid() && size % 4096 == 0 && 6 * 4096 <= size < TWO63
    requires off == 1 || off == Sectors(size, g.sectorSize) - 1
    requires HeaderNumbers(g, off, size) && Sane(g, off) && EntriesUsable(g.header, g.table, g.header.entryCount)
    ensures Rebuildable(g, size)
  {
    hide EntryAt, Used, Start, End;
  }

  lemma NumbersPlaceTable(g: Gpt, off: nat, size: nat)
    requires g.Valid() && size % 4096 == 0 && 6 * 4096 <= size < TWO63
    requires off == 1 || off == Sectors(size, g.sectorSize) - 1
    requires HeaderNumbers(g, off, size) && Sane(g, off)
    ensures TablePlaced(g, off, size)
  {
    hide EntryAt, Used, Start, End;
    RoundUpLeast(|g.table|, g.sectorSize, Span(TableSectors(g.header, off), g.sectorSize));
  }
}
