/** Rebuilding a table for another sector size: gpt_adjust_sectors and fixup_gpt. */
module GptAdjust {
  import opened Bytes
  import opened GptFormat
  import opened GptCheck

  // ----- Byte ranges of the used entries -----

  function StartByte(g: Gpt, i: nat): nat
    requires g.Valid() && i < g.header.entryCount
  {
    Span(Start(EntryAt(g.table, i)), g.sectorSize)
  }

  /** One past the last byte; EndingLBA is inclusive. */
  function EndByte(g: Gpt, i: nat): nat
    requires g.Valid() && i < g.header.entryCount
  {
    Span(End(EntryAt(g.table, i)) + 1, g.sectorSize)
  }

  predicate UsedAt(g: Gpt, i: nat)
    requires g.Valid() && i < g.header.entryCount
  {
    Used(EntryAt(g.table, i))
  }

  predicate AlignedEntries(g: Gpt, ss: nat, n: nat)
    requires g.Valid() && n <= g.used && SectorSize(ss)
  {
    forall i :: 0 <= i < n && UsedAt(g, i) ==> Aligned(StartByte(g, i), ss) && Aligned(EndByte(g, i), ss)
  }

  /** First byte of any of the first n entries that is used; UINT64_MAX if none is. */
  function FirstByte(g: Gpt, n: nat): (lo: nat)
    requires g.Valid() && n <= g.used
    ensures forall i :: 0 <= i < n && UsedAt(g, i) ==> lo <= StartByte(g, i)
    ensures lo == TWO64 - 1 || exists i :: 0 <= i < n && UsedAt(g, i) && lo == StartByte(g, i)
  {
    if n == 0 then TWO64 - 1
    else if UsedAt(g, n - 1) then Min(FirstByte(g, n - 1), StartByte(g, n - 1))
    else FirstByte(g, n - 1)
  }

  /** One past the last byte of any of the first n entries that is used; 0 if none is. */
  function LastByte(g: Gpt, n: nat): (hi: nat)
    requires g.Valid() && n <= g.used
    ensures forall i :: 0 <= i < n && UsedAt(g, i) ==> EndByte(g, i) <= hi
    ensures hi == 0 || exists i :: 0 <= i < n && UsedAt(g, i) && hi == EndByte(g, i)
  {
    if n == 0 then 0
    else if UsedAt(g, n - 1) then Max(LastByte(g, n - 1), EndByte(g, n - 1))
    else LastByte(g, n - 1)
  }

  /** The user data of a table spans [DataLo, DataHi). */
  function DataLo(g: Gpt): nat
    requires g.Valid()
  {
    FirstByte(g, g.used)
  }

  function DataHi(g: Gpt): nat
    requires g.Valid()
  {
    LastByte(g, g.used)
  }

  lemma UsedEntryBounds(g: Gpt, size: nat, i: nat)
    requires Rebuildable(g, size) && i < g.used && UsedAt(g, i)
    ensures Span(g.header.firstUsable, g.sectorSize) <= StartByte(g, i) < EndByte(g, i)
    ensures EndByte(g, i) <= Span(g.header.lastUsable + 1, g.sectorSize) <= size - g.sectorSize
    ensures DataLo(g) <= StartByte(g, i) && EndByte(g, i) <= DataHi(g)
  {
    hide Used, Start, End;
    var e := EntryAt(g.table, i);
    assert Used(e);
    assert g.header.firstUsable <= Start(e) <= End(e) <= g.header.lastUsable;
  }

  /** The numbers in a rebuildable table, without its entries. */
  lemma RebuildableNumbers(g: Gpt, size: nat)
    requires Rebuildable(g, size)
    ensures g.Valid() && SectorSize(g.sectorSize)
    ensures size % 4096 == 0 && 6 * 4096 <= size < TWO63
    ensures 0 < g.used <= g.header.entryCount && ENTRY_BYTES * g.header.entryCount <= MAX_TABLE_BYTES
    ensures 3 <= g.header.firstUsable <= g.header.lastUsable
    ensures Span(g.header.lastUsable + 2, g.sectorSize) <= size
  {
  }

  /** The extremes are attained by used entries. */
  lemma DataWitnesses(g: Gpt, size: nat) returns (i: nat, j: nat)
    requires Rebuildable(g, size)
    ensures i < g.used && UsedAt(g, i) && DataLo(g) == StartByte(g, i)
    ensures j < g.used && UsedAt(g, j) && DataHi(g) == EndByte(g, j)
  {
    hide FirstByte, LastByte, Used, Start, End, EntryAt;
    UsedEntryBounds(g, size, g.used - 1);
    i :| 0 <= i < g.used && UsedAt(g, i) && DataLo(g) == StartByte(g, i);
    j :| 0 <= j < g.used && UsedAt(g, j) && DataHi(g) == EndByte(g, j);
  }

  lemma DataBounds(g: Gpt, size: nat)
    requires Rebuildable(g, size)
    ensures Span(g.header.firstUsable, g.sectorSize) <= DataLo(g) < DataHi(g)
    ensures DataHi(g) <= Span(g.header.lastUsable + 1, g.sectorSize) <= size - g.sectorSize
    ensures Aligned(DataLo(g), g.sectorSize) && Aligned(DataHi(g), g.sectorSize)
  {
    hide Gpt.Valid, Rebuildable, DataLo, DataHi, UsedAt, StartByte, EndByte, Span, Aligned;
    RebuildableNumbers(g, size);
    var i, j := DataWitnesses(g, size);
    UsedEntryBounds(g, size, i);
    UsedEntryBounds(g, size, j);
    EntryOnOwnSectors(g, i);
    EntryOnOwnSectors(g, j);
  }

  lemma EntryOnOwnSectors(g: Gpt, i: nat)
    requires g.Valid() && i < g.header.entryCount
    ensures Aligned(StartByte(g, i), g.sectorSize) && Aligned(EndByte(g, i), g.sectorSize)
  {
    hide EntryAt, Start, End, Aligned, Span;
    SpanAligned(Start(EntryAt(g.table, i)), g.sectorSize);
    SpanAligned(End(EntryAt(g.table, i)) + 1, g.sectorSize);
  }

  lemma DataAligned(g: Gpt, size: nat, ss: nat)
    requires Rebuildable(g, size) && SectorSize(ss) && AlignedEntries(g, ss, g.used)
    ensures Aligned(DataLo(g), ss) && Aligned(DataHi(g), ss)
  {
    hide Gpt.Valid, Rebuildable, DataLo, DataHi, UsedAt, StartByte, EndByte;
    var i, j := DataWitnesses(g, size);
  }

  // ----- The new table -----

  /** gpt_partition_table_required_bytes */
  function RequiredBytes(entries: nat, ss: nat): nat
    requires SectorSize(ss)
  {
    RoundUp(ENTRY_BYTES * entries, ss)
  }

  /** A table of n entries fits before the first partition and after the last one. */
  predicate Fits(g: Gpt, ss: nat, size: nat, n: nat)
    requires g.Valid() && SectorSize(ss)
  {
    && DataHi(g) + RequiredBytes(n, ss) + ss <= size
    && RequiredBytes(n, ss) + 2 * ss <= DataLo(g)
  }

  predicate Convertible(g: Gpt, ss: nat, size: nat)
    requires g.Valid() && SectorSize(ss)
  {
    AlignedEntries(g, ss, g.used) && Fits(g, ss, size, g.used)
  }

  function AvailableBytes(g: Gpt, ss: nat, size: nat): nat
    requires g.Valid() && SectorSize(ss) && Fits(g, ss, size, g.used)
  {
    Min(size - ss - DataHi(g), DataLo(g) - 2 * ss)
  }

  function NewCount(g: Gpt, ss: nat, size: nat): nat
    requires g.Valid() && SectorSize(ss) && Fits(g, ss, size, g.used)
  {
    Min(AvailableBytes(g, ss, size) / ENTRY_BYTES, g.header.entryCount)
  }

  /** The new table keeps every used entry, fits both gaps, and no larger one not above the old count does. */
  lemma CountIsLargestThatFits(g: Gpt, ss: nat, size: nat)
    requires Rebuildable(g, size) && SectorSize(ss) && Convertible(g, ss, size)
    ensures g.used <= NewCount(g, ss, size) <= g.header.entryCount
    ensures Fits(g, ss, size, NewCount(g, ss, size))
    ensures forall n :: NewCount(g, ss, size) < n <= g.header.entryCount ==> !Fits(g, ss, size, n)
  {
    hide Gpt.Valid, Rebuildable, AlignedEntries, DataLo, DataHi, RoundUp, Aligned;
    RebuildableNumbers(g, size);
    DataAligned(g, size, ss);
    var room, count := AvailableBytes(g, ss, size), NewCount(g, ss, size);
    RoomAligned(DataLo(g), DataHi(g), ss, size);
    assert ENTRY_BYTES * g.used <= room;
    assert ENTRY_BYTES * count <= room;
    RoundUpLeast(ENTRY_BYTES * count, ss, room);
    forall n | count < n <= g.header.entryCount ensures !Fits(g, ss, size, n) {
      assert room < ENTRY_BYTES * n <= RequiredBytes(n, ss);
    }
  }

  lemma RoomAligned(lo: nat, hi: nat, ss: nat, size: nat)
    requires SectorSize(ss) && size % 4096 == 0 && Aligned(lo, ss) && Aligned(hi, ss)
    ensures Aligned(size, ss) && Aligned(Min(size - ss - hi, lo - 2 * ss), ss)
  {
    AlignedParts(lo, ss);
    AlignedParts(hi, ss);
    BigIsAligned(size, ss);
    AlignedParts(size, ss);
    var a, b, c := Sectors(lo, ss), Sectors(hi, ss), Sectors(size, ss);
    SpanAligned(c - 1 - b, ss);
    SpanAligned(a - 2, ss);
  }

  lemma AlignedParts(x: nat, ss: nat)
    requires SectorSize(ss) && Aligned(x, ss)
    ensures x == Span(Sectors(x, ss), ss)
  {
  }

  lemma BigIsAligned(x: nat, ss: nat)
    requires SectorSize(ss) && x % 4096 == 0
    ensures Aligned(x, ss)
  {
    var k := x / 4096;
    assert x == 4096 * k == 512 * (8 * k);
  }

  /** An entry for the new sector size: the same bytes with the two LBAs rewritten (gpt.c wraps at 64 bits). */
  function AdjustEntry(e: Entry, from: nat, to: nat): (r: Entry)
    requires SectorSize(from) && SectorSize(to)
    ensures Used(r) <==> Used(e)
  {
    if Used(e)
    then WithRange(e, U64(Sectors(U64(Span(Start(e), from)), to)),
                   U64(Sectors(U64(Span(End(e) + 1, from)), to) - 1))
    else e
  }

  /** The byte range of an aligned entry is the same before and after. */
  lemma AdjustEntryKeepsRange(e: Entry, from: nat, to: nat)
    requires SectorSize(from) && SectorSize(to) && Used(e)
    requires Start(e) <= End(e) && Span(End(e) + 1, from) < TWO63
    requires Aligned(Span(Start(e), from), to) && Aligned(Span(End(e) + 1, from), to)
    ensures var r := AdjustEntry(e, from, to);
            Span(Start(r), to) == Span(Start(e), from) && Span(End(r) + 1, to) == Span(End(e) + 1, from)
  {
    hide Used, Start, End;
    var s, t := Start(e), End(e);
    assert U64(Span(s, from)) == Span(s, from);
    assert U64(Span(t + 1, from)) == Span(t + 1, from);
  }

  function AdjustTable(g: Gpt, ss: nat, n: nat): (t: seq<byte>)
    requires g.Valid() && SectorSize(ss) && n <= g.header.entryCount
    ensures |t| == ENTRY_BYTES * n
  {
    if n == 0 then []
    else AdjustTable(g, ss, n - 1) + AdjustEntry(EntryAt(g.table, n - 1), g.sectorSize, ss)
  }

  lemma {:induction false} AdjustTableAt(g: Gpt, ss: nat, n: nat, i: nat)
    requires g.Valid() && SectorSize(ss) && i < n <= g.header.entryCount
    ensures EntryAt(AdjustTable(g, ss, n), i) == AdjustEntry(EntryAt(g.table, i), g.sectorSize, ss)
    decreases n
  {
    hide AdjustEntry, Used;
    var front := AdjustTable(g, ss, n - 1);
    var last := AdjustEntry(EntryAt(g.table, n - 1), g.sectorSize, ss);
    assert AdjustTable(g, ss, n) == front + last;
    if i < n - 1 {
      AdjustTableAt(g, ss, n - 1, i);
      assert EntryAt(front + last, i) == EntryAt(front, i);
    } else {
      assert EntryAt(front + last, i) == last;
    }
  }

  // ----- The new header -----

  function NewTable(g: Gpt, ss: nat, size: nat): (t: seq<byte>)
    requires g.Valid() && SectorSize(ss) && Fits(g, ss, size, g.used)
    ensures |t| == ENTRY_BYTES * NewCount(g, ss, size)
  {
    AdjustTable(g, ss, NewCount(g, ss, size))
  }

  /** The fields of the new header are in range. */
  lemma BlankFields(g: Gpt, off: nat, ss: nat, size: nat)
    requires Rebuildable(g, size) && SectorSize(ss) && Convertible(g, ss, size)
    requires off == 1 || off == Sectors(size, ss) - 1
    ensures g.Valid() && Fits(g, ss, size, g.used) && 6 <= Sectors(size, ss) < TWO64
    ensures 0 <= FirstUsableLba(g, ss, size) < TWO64 && 0 <= LastUsableLba(g, ss, size) < TWO64
    ensures 0 <= EntryLba(g, off, ss, size) < TWO64 && NewCount(g, ss, size) < TWO32
    ensures g.header.WellFormed() && |SIGNATURE| == 8
  {
    hide Gpt.Valid, Rebuildable, AlignedEntries, DataLo, DataHi, NewCount, RoundUp, FirstUsableLba, LastUsableLba,
         RequiredBytes;
    RebuildableNumbers(g, size);
    CountIsLargestThatFits(g, ss, size);
    HeaderFieldsInRange(g, ss, size);
    DataBounds(g, size);
    ValidHeader(g);
  }

  lemma ValidHeader(g: Gpt)
    requires g.Valid()
    ensures g.header.WellFormed()
  {
  }

  /** Both checksums zero, as line 443 leaves them. */
  function BlankHeader(g: Gpt, off: nat, ss: nat, size: nat): (h: Header)
    requires Rebuildable(g, size) && SectorSize(ss) && Convertible(g, ss, size)
    requires off == 1 || off == Sectors(size, ss) - 1
    ensures h.WellFormed()
  {
    hide Rebuildable, Convertible, FirstUsableLba, LastUsableLba, EntryLba, NewCount, Gpt.Valid, Fits;
    BlankFields(g, off, ss, size);
    var sectors := Sectors(size, ss);
    Header(SIGNATURE, g.header.revision, g.header.headerSize, 0, 0,
           off, if off == 1 then sectors - 1 else 1,
           FirstUsableLba(g, ss, size), LastUsableLba(g, ss, size),
           g.header.diskGuid, EntryLba(g, off, ss, size),
           NewCount(g, ss, size), ENTRY_BYTES, 0)
  }

  function FirstUsableLba(g: Gpt, ss: nat, size: nat): int
    requires g.Valid() && SectorSize(ss) && Fits(g, ss, size, g.used)
  {
    var required := RequiredBytes(NewCount(g, ss, size), ss) + 2 * ss;
    Sectors(RoundUp(Max(Span(g.header.firstUsable, g.sectorSize), required), ss), ss)
  }

  function LastUsableLba(g: Gpt, ss: nat, size: nat): int
    requires g.Valid() && SectorSize(ss) && Fits(g, ss, size, g.used)
  {
    var required := RequiredBytes(NewCount(g, ss, size), ss) + ss;
    Sectors(Min(Span(g.header.lastUsable + 1, g.sectorSize), size - required), ss) - 1
  }

  function EntryLba(g: Gpt, off: nat, ss: nat, size: nat): int
    requires g.Valid() && SectorSize(ss) && Fits(g, ss, size, g.used)
  {
    if off == 1 then 2 else Sectors(size, ss) - 1 - Sectors(RequiredBytes(NewCount(g, ss, size), ss), ss)
  }

  /** The new usable range holds all user data and is clear of both copies of the new table. */
  lemma HeaderFieldsInRange(g: Gpt, ss: nat, size: nat)
    requires Rebuildable(g, size) && SectorSize(ss) && Convertible(g, ss, size)
    ensures var table := RequiredBytes(NewCount(g, ss, size), ss);
            var first, last := FirstUsableLba(g, ss, size), LastUsableLba(g, ss, size);
            && 3 <= first <= last
            && 2 * ss + table <= Span(first, ss) <= DataLo(g)
            && DataHi(g) <= Span(last + 1, ss) <= size - ss - table
            && Span(first, ss) >= Span(g.header.firstUsable, g.sectorSize)
            && Span(last + 1, ss) <= Span(g.header.lastUsable + 1, g.sectorSize)
            && Span(EntryLba(g, 0, ss, size), ss) == size - ss - table
            && ss <= table <= MAX_TABLE_BYTES + ss
  {
    hide Gpt.Valid, Rebuildable, AlignedEntries, DataLo, DataHi, NewCount, RoundUp, Aligned, Sectors, Span;
    RebuildableNumbers(g, size);
    CountIsLargestThatFits(g, ss, size);
    DataBounds(g, size);
    DataAligned(g, size, ss);
    var table := RequiredBytes(NewCount(g, ss, size), ss);
    var from := g.sectorSize;
    FirstArithmetic(Span(g.header.firstUsable, from), table, DataLo(g), ss);
    LastArithmetic(Span(g.header.lastUsable + 1, from), table, DataHi(g), size, ss);
    assert ss <= table by {
      TableNotEmpty(NewCount(g, ss, size), ss);
    }
    LbaOrder(FirstUsableLba(g, ss, size), LastUsableLba(g, ss, size), ss);
  }

  lemma TableNotEmpty(n: nat, ss: nat)
    requires SectorSize(ss) && 0 < n
    ensures ss <= RequiredBytes(n, ss)
  {
  }

  lemma FirstArithmetic(first: int, table: nat, lo: nat, ss: nat)
    requires SectorSize(ss) && Aligned(table, ss) && Aligned(lo, ss) && first <= lo && table + 2 * ss <= lo
    ensures var lba := Sectors(RoundUp(Max(first, table + 2 * ss), ss), ss);
            table + 2 * ss <= Span(lba, ss) <= lo && first <= Span(lba, ss)
  {
    RoundUpLeast(Max(first, table + 2 * ss), ss, lo);
  }

  lemma LastArithmetic(last: int, table: nat, hi: nat, size: nat, ss: nat)
    requires SectorSize(ss) && Aligned(table, ss) && Aligned(hi, ss) && size % 4096 == 0
    requires hi <= last && hi + table + ss <= size
    ensures var end := Sectors(Min(last, size - (table + ss)), ss);
            hi <= Span(end, ss) <= size - ss - table && Span(end, ss) <= last
    ensures Span(Sectors(size, ss) - 1 - Sectors(table, ss), ss) == size - ss - table
  {
    hide Span, Sectors, Aligned;
    WholeSectors(Min(last, size - (table + ss)), hi, ss);
    SpanSectors(size, table, ss);
  }

  lemma WholeSectors(x: nat, bound: nat, ss: nat)
    requires SectorSize(ss) && Aligned(bound, ss) && bound <= x
    ensures bound <= Span(Sectors(x, ss), ss) <= x
  {
  }

  lemma SpanSectors(size: nat, table: nat, ss: nat)
    requires SectorSize(ss) && size % 4096 == 0 && Aligned(table, ss)
    ensures Span(Sectors(size, ss) - 1 - Sectors(table, ss), ss) == size - ss - table
  {
  }

  lemma LbaOrder(first: int, last: int, ss: nat)
    requires SectorSize(ss) && 3 * ss <= Span(first, ss) < Span(last + 1, ss)
    ensures 3 <= first <= last
  {
  }

  /** fixup_gpt: the table checksum goes into the header before the header checksum is taken. */
  function NewHeader(crc: Checksum, g: Gpt, off: nat, ss: nat, size: nat): (h: Header)
    requires Rebuildable(g, size) && SectorSize(ss) && Convertible(g, ss, size)
    requires off == 1 || off == Sectors(size, ss) - 1
    ensures h.WellFormed()
  {
    var h := BlankHeader(g, off, ss, size).(tableCrc := crc(NewTable(g, ss, size)));
    h.(headerCrc := crc(EncodeHeader(h)))
  }

  /** A rebuilt table: header and entry array, the latter padded to whole sectors. */
  datatype Rebuilt = Rebuilt(header: Header, entries: seq<byte>)
  datatype Adjusted = Ok(gpt: Rebuilt) | ConstraintExit

  /** gpt_adjust_sectors. The caller exits with EXIT_CONSTRAINT exactly when the table is not convertible. */
  function Adjust(crc: Checksum, g: Gpt, off: nat, ss: nat, size: nat): Adjusted
    requires Rebuildable(g, size) && SectorSize(ss)
    requires off == 1 || off == Sectors(size, ss) - 1
  {
    if !Convertible(g, ss, size) then ConstraintExit
    else
      var table := NewTable(g, ss, size);
      Ok(Rebuilt(NewHeader(crc, g, off, ss, size),
                 table + Zeros(RequiredBytes(NewCount(g, ss, size), ss) - |table|)))
  }

  // ----- What a rebuilt table is worth -----

  /** Every test of check_gpt_header passes on the rebuilt header, except that a header size copied from
      4096-byte sectors may be too large for 512-byte ones. */
  lemma RebuiltHeaderVerdict(crc: Checksum, g: Gpt, off: nat, ss: nat, size: nat)
    requires Rebuildable(g, size) && SectorSize(ss) && Convertible(g, ss, size)
    requires off == 1 || off == Sectors(size, ss) - 1
    ensures CheckHeader(crc, NewHeader(crc, g, off, ss, size), off, ss, Sectors(size, ss))
         == if g.header.headerSize <= ss then Accepted(ENTRY_BYTES * NewCount(g, ss, size)) else Rejected
  {
    hide Gpt.Valid, AlignedEntries, DataLo, DataHi, NewCount, RoundUp, Aligned, FirstUsableLba, LastUsableLba,
         NewTable, EncodeHeader;
    var h := NewHeader(crc, g, off, ss, size);
    RebuildableNumbers(g, size);
    CountIsLargestThatFits(g, ss, size);
    HeaderFieldsInRange(g, ss, size);
    DataBounds(g, size);
    var table := RequiredBytes(NewCount(g, ss, size), ss);
    PositionArithmetic(h.firstUsable, h.lastUsable, h.entryLba, off, table, ENTRY_BYTES * h.entryCount, size, ss);
    HeaderCrcMatches(crc, BlankHeader(g, off, ss, size).(tableCrc := crc(NewTable(g, ss, size))));
  }

  /** The header checksum was taken over the header with its checksum field zero. */
  lemma HeaderCrcMatches(crc: Checksum, h: Header)
    requires h.WellFormed() && h.headerCrc == 0
    ensures var n := h.(headerCrc := crc(EncodeHeader(h))); n.headerCrc == HeaderChecksum(crc, n)
  {
    hide EncodeHeader;
    var n := h.(headerCrc := crc(EncodeHeader(h)));
    assert n.(headerCrc := 0) == h;
  }

  lemma PositionArithmetic(first: nat, last: nat, entryLba: nat, off: nat, table: nat, bytes: nat, size: nat, ss: nat)
    requires SectorSize(ss) && size % 4096 == 0 && 6 * 4096 <= size < TWO63
    requires off == 1 || off == Sectors(size, ss) - 1
    requires ss <= table && bytes <= table
    requires first <= last && 2 * ss + table <= Span(first, ss) && Span(last + 1, ss) <= size - ss - table
    requires if off == 1 then entryLba == 2 else Span(entryLba, ss) == size - ss - table
    ensures off != 1 ==> last < entryLba < off && bytes <= Span(off - entryLba, ss) < TWO64
    ensures off == 1 ==> last < Sectors(size, ss) - 1 && bytes <= Span(first - 2, ss) < TWO64
  {
  }

  /** Conservation: a used entry keeps its byte range and every byte outside the two LBAs, and lies in the
      new usable range. */
  lemma UsedEntrySurvives(crc: Checksum, g: Gpt, off: nat, ss: nat, size: nat, i: nat)
    requires Rebuildable(g, size) && SectorSize(ss) && Convertible(g, ss, size)
    requires off == 1 || off == Sectors(size, ss) - 1
    requires i < g.used && UsedAt(g, i)
    ensures g.used <= NewCount(g, ss, size)
    ensures var e, n, h := EntryAt(g.table, i), EntryAt(NewTable(g, ss, size), i), NewHeader(crc, g, off, ss, size);
            && Used(n) && n[..32] == e[..32] && n[48..] == e[48..]
            && Span(Start(n), ss) == StartByte(g, i) && Span(End(n) + 1, ss) == EndByte(g, i)
            && h.firstUsable <= Start(n) <= End(n) <= h.lastUsable
  {
    hide AlignedEntries, DataLo, DataHi, NewCount, RoundUp, FirstUsableLba, LastUsableLba, AdjustEntry,
         AdjustTable, NewHeader, Used, Start, End;
    CountIsLargestThatFits(g, ss, size);
    HeaderFieldsInRange(g, ss, size);
    UsedEntryBounds(g, size, i);
    var e := EntryAt(g.table, i);
    var n := AdjustEntry(e, g.sectorSize, ss);
    AdjustTableAt(g, ss, NewCount(g, ss, size), i);
    assert Aligned(StartByte(g, i), ss) && Aligned(EndByte(g, i), ss) by {
      EntryAligned(g, ss, i);
    }
    AdjustEntryKeepsRange(e, g.sectorSize, ss);
    AdjustEntryKeepsRest(e, g.sectorSize, ss);
    NewHeaderUsable(crc, g, off, ss, size);
    InsideArithmetic(Start(n), End(n), NewHeader(crc, g, off, ss, size), ss);
  }

  lemma EntryAligned(g: Gpt, ss: nat, i: nat)
    requires g.Valid() && SectorSize(ss) && AlignedEntries(g, ss, g.used) && i < g.used && UsedAt(g, i)
    ensures Aligned(StartByte(g, i), ss) && Aligned(EndByte(g, i), ss)
  {
  }

  lemma AdjustEntryKeepsRest(e: Entry, from: nat, to: nat)
    requires SectorSize(from) && SectorSize(to)
    ensures var r := AdjustEntry(e, from, to); r[..32] == e[..32] && r[48..] == e[48..] && (!Used(e) ==> r == e)
  {
  }

  lemma NewHeaderUsable(crc: Checksum, g: Gpt, off: nat, ss: nat, size: nat)
    requires Rebuildable(g, size) && SectorSize(ss) && Convertible(g, ss, size)
    requires off == 1 || off == Sectors(size, ss) - 1
    ensures var h := NewHeader(crc, g, off, ss, size);
            h.firstUsable == FirstUsableLba(g, ss, size) && h.lastUsable == LastUsableLba(g, ss, size)
  {
    hide Gpt.Valid, AlignedEntries, FirstUsableLba, LastUsableLba;
  }

  lemma InsideArithmetic(start: nat, end: nat, h: Header, ss: nat)
    requires SectorSize(ss)
    requires Span(h.firstUsable, ss) <= Span(start, ss) < Span(end + 1, ss) <= Span(h.lastUsable + 1, ss)
    ensures h.firstUsable <= start <= end <= h.lastUsable
  {
  }

  // ----- The loops of gpt_adjust_sectors -----

  /** Lines 469-483 and 315: copy the entries into a fresh buffer, rewrite the used ones, zero the tail. */
  method FillTable(g: Gpt, ss: nat, count: nat, bytes: nat) returns (buffer: array<byte>)
    requires g.Valid() && SectorSize(ss) && count <= g.header.entryCount && ENTRY_BYTES * count <= bytes
    ensures fresh(buffer)
    ensures buffer[..] == AdjustTable(g, ss, count) + Zeros(bytes - ENTRY_BYTES * count)
  {
    hide AdjustEntry, EntryAt, Used;
    buffer := new byte[bytes];
    var i := 0;
    while i < count
      invariant 0 <= i <= count
      invariant buffer[..ENTRY_BYTES * i] == AdjustTable(g, ss, i)
    {
      var e := AdjustEntry(EntryAt(g.table, i), g.sectorSize, ss);
      PutEntry(buffer, ENTRY_BYTES * i, e);
      i := i + 1;
    }
    ghost var table := buffer[..ENTRY_BYTES * count];
    for k := ENTRY_BYTES * count to bytes
      invariant buffer[..ENTRY_BYTES * count] == table
      invariant forall j :: ENTRY_BYTES * count <= j < k ==> buffer[j] == 0
    {
      buffer[k] := 0;
    }
    assert buffer[..] == table + Zeros(bytes - ENTRY_BYTES * count);
  }

  method PutEntry(buffer: array<byte>, base: nat, e: Entry)
    requires base + ENTRY_BYTES <= buffer.Length
    modifies buffer
    ensures buffer[..base + ENTRY_BYTES] == old(buffer[..base]) + e
  {
    for k := 0 to ENTRY_BYTES
      invariant buffer[..base + k] == old(buffer[..base]) + e[..k]
    {
      buffer[base + k] := e[k];
      assert buffer[..base + k + 1] == buffer[..base + k] + [e[k]];
    }
  }

  /** Line 335 as computed, wrapping at 64 bits. */
  function StartBytes64(g: Gpt, i: nat): uint64
    requires g.Valid() && i < g.header.entryCount
  {
    U64(Span(Start(EntryAt(g.table, i)), g.sectorSize))
  }

  /** Line 336 as computed, wrapping at 64 bits. */
  function EndBytes64(g: Gpt, i: nat): uint64
    requires g.Valid() && i < g.header.entryCount
  {
    U64(Span(U64(End(EntryAt(g.table, i)) + 1), g.sectorSize))
  }

  predicate Aligned64(g: Gpt, ss: nat, n: nat)
    requires g.Valid() && n <= g.used && SectorSize(ss)
  {
    forall i :: 0 <= i < n && UsedAt(g, i) ==> Aligned(StartBytes64(g, i), ss) && Aligned(EndBytes64(g, i), ss)
  }

  /** The least start of the first n entries that is used, as computed; UINT64_MAX if none is. */
  function First64(g: Gpt, n: nat): uint64
    requires g.Valid() && n <= g.used
  {
    if n == 0 then TWO64 - 1
    else if UsedAt(g, n - 1) then Min(First64(g, n - 1), StartBytes64(g, n - 1))
    else First64(g, n - 1)
  }

  /** The greatest end, as computed; 0 if no entry is used. */
  function Last64(g: Gpt, n: nat): uint64
    requires g.Valid() && n <= g.used
  {
    if n == 0 then 0
    else if UsedAt(g, n - 1) then Max(Last64(g, n - 1), EndBytes64(g, n - 1))
    else Last64(g, n - 1)
  }

  lemma {:induction false} Extremes64(g: Gpt, n: nat)
    requires g.Valid() && n <= g.used
    ensures forall i :: 0 <= i < n && UsedAt(g, i) ==>
              First64(g, n) <= StartBytes64(g, i) && EndBytes64(g, i) <= Last64(g, n)
    ensures First64(g, n) == TWO64 - 1 || exists i :: 0 <= i < n && UsedAt(g, i) && First64(g, n) == StartBytes64(g, i)
    ensures Last64(g, n) == 0 || exists i :: 0 <= i < n && UsedAt(g, i) && Last64(g, n) == EndBytes64(g, i)
  {
    hide Gpt.Valid, UsedAt, StartBytes64, EndBytes64;
    if n > 0 {
      Extremes64(g, n - 1);
    }
  }

  /** The assertion of line 363 fails exactly on tables of which every used entry starts at or behind the end of every
      used entry. */
  lemma OrderAssertionFailsExactly(g: Gpt)
    requires g.Valid()
    ensures First64(g, g.used) >= Last64(g, g.used)
       <==> forall i, j :: 0 <= i < g.used && 0 <= j < g.used && UsedAt(g, i) && UsedAt(g, j) ==>
              StartBytes64(g, i) >= EndBytes64(g, j)
  {
    hide Used, Start, End, EntryAt, StartBytes64, EndBytes64, First64, Last64;
    assert UsedAt(g, g.used - 1);
    var lo, hi := First64(g, g.used), Last64(g, g.used);
    Extremes64(g, g.used);
    assert EndBytes64(g, g.used - 1) <= hi && lo <= StartBytes64(g, g.used - 1);
    if lo < hi {
      var i :| 0 <= i < g.used && UsedAt(g, i) && lo == StartBytes64(g, i);
      var j :| 0 <= j < g.used && UsedAt(g, j) && hi == EndBytes64(g, j);
    }
  }

  lemma RangeDoesNotWrap(g: Gpt, size: nat, i: nat)
    requires Rebuildable(g, size) && i < g.used && UsedAt(g, i)
    ensures StartBytes64(g, i) == StartByte(g, i) && EndBytes64(g, i) == EndByte(g, i)
  {
    hide Used, Start, End, EntryAt, UsedAt, Rebuildable;
    RebuildableNumbers(g, size);
    UsedEntryBounds(g, size, i);
  }

  lemma Unfold64(g: Gpt, n: nat)
    requires g.Valid() && n < g.used
    ensures First64(g, n + 1) == if UsedAt(g, n) then Min(First64(g, n), StartBytes64(g, n)) else First64(g, n)
    ensures Last64(g, n + 1) == if UsedAt(g, n) then Max(Last64(g, n), EndBytes64(g, n)) else Last64(g, n)
  {
  }

  lemma ScanUnfold(g: Gpt, i: nat)
    requires g.Valid() && i < g.used
    ensures FirstByte(g, i + 1) == if UsedAt(g, i) then Min(FirstByte(g, i), StartByte(g, i)) else FirstByte(g, i)
    ensures LastByte(g, i + 1) == if UsedAt(g, i) then Max(LastByte(g, i), EndByte(g, i)) else LastByte(g, i)
  {
  }

  /** On a sane table that was found, none of these expressions wraps. */
  lemma {:induction false} ScanIsExact(g: Gpt, size: nat, n: nat)
    requires Rebuildable(g, size) && g.Valid() && n <= g.used
    ensures First64(g, n) == FirstByte(g, n) && Last64(g, n) == LastByte(g, n)
  {
    hide StartByte, EndByte, StartBytes64, EndBytes64, Rebuildable, UsedAt, Gpt.Valid, First64, Last64, FirstByte,
         LastByte;
    NothingScanned(g);
    if n > 0 {
      ScanIsExact(g, size, n - 1);
      Unfold64(g, n - 1);
      ScanUnfold(g, n - 1);
      if UsedAt(g, n - 1) {
        RangeDoesNotWrap(g, size, n - 1);
      }
    }
  }

  lemma AlignmentIsExact(g: Gpt, ss: nat, size: nat)
    requires Rebuildable(g, size) && SectorSize(ss) && g.Valid()
    ensures Aligned64(g, ss, g.used) <==> AlignedEntries(g, ss, g.used)
  {
    hide StartByte, EndByte, StartBytes64, EndBytes64, Rebuildable, UsedAt, Gpt.Valid, Aligned;
    RebuildableNumbers(g, size);
    forall i | 0 <= i < g.used && UsedAt(g, i)
      ensures StartBytes64(g, i) == StartByte(g, i) && EndBytes64(g, i) == EndByte(g, i)
    {
      RangeDoesNotWrap(g, size, i);
    }
  }

  /** Lines 326-362: the running minimum and maximum, or false at the first misaligned entry, for any table; on a sane
      table that was found, the exact ones. */
  method ScanRanges(g: Gpt, ss: nat, ghost size: nat) returns (aligned: bool, first: uint64, last: uint64)
    requires g.Valid() && SectorSize(ss)
    ensures aligned == Aligned64(g, ss, g.used)
    ensures aligned ==> first == First64(g, g.used) && last == Last64(g, g.used)
    ensures Rebuildable(g, size) ==>
              aligned == AlignedEntries(g, ss, g.used) && (aligned ==> first == DataLo(g) && last == DataHi(g))
  {
    hide Gpt.Valid, Rebuildable, AlignedEntries, FirstByte, LastByte, First64, Last64, UsedAt, StartBytes64, EndBytes64,
         Aligned;
    first, last := TWO64 - 1, 0;
    NothingScanned(g);
    if Rebuildable(g, size) {
      ScanIsExact(g, size, g.used);
      AlignmentIsExact(g, ss, size);
    }
    var i := 0;
    while i < g.used
      invariant 0 <= i <= g.used
      invariant Aligned64(g, ss, i) && first == First64(g, i) && last == Last64(g, i)
    {
      Unfold64(g, i);
      if UsedAt(g, i) {
        var start := StartBytes64(g, i);
        var end := EndBytes64(g, i);
        if !Aligned(start, ss) || !Aligned(end, ss) {
          return false, first, last;
        }
        if start < first {
          first := start;
        }
        if last <= end {
          last := end;
        }
      }
      i := i + 1;
    }
    aligned := true;
  }

  lemma NothingScanned(g: Gpt)
    requires g.Valid()
    ensures First64(g, 0) == TWO64 - 1 == FirstByte(g, 0) && Last64(g, 0) == 0 == LastByte(g, 0)
    ensures 0 < g.used <= g.header.entryCount && SectorSize(g.sectorSize)
  {
  }

  /** No 64-bit expression of lines 364-439 wraps, and the assertions of lines 363, 375 and 411 hold. */
  lemma NothingWraps(g: Gpt, ss: nat, size: nat)
    requires Rebuildable(g, size) && SectorSize(ss)
    ensures DataLo(g) < DataHi(g) <= size
    ensures RequiredBytes(g.used, ss) + 2 * ss < TWO64
    ensures 0 <= Span(g.header.firstUsable, g.sectorSize) < Span(g.header.lastUsable + 1, g.sectorSize) < TWO64
    ensures Convertible(g, ss, size) ==>
              && g.used <= AvailableBytes(g, ss, size) / ENTRY_BYTES
              && RequiredBytes(NewCount(g, ss, size), ss) + 2 * ss < TWO64
  {
    hide Gpt.Valid, Rebuildable, AlignedEntries, DataLo, DataHi, Aligned;
    RebuildableNumbers(g, size);
    DataBounds(g, size);
    if Convertible(g, ss, size) {
      CountIsLargestThatFits(g, ss, size);
    }
  }

  /** Lines 326-416, in 64-bit arithmetic: how many entries the new table gets, or a constraint exit. */
  method ChooseCount(g: Gpt, ss: nat, size: nat) returns (convertible: bool, count: nat)
    requires SectorSize(ss) && Rebuildable(g, size)
    ensures convertible == Convertible(g, ss, size)
    ensures convertible ==> count == NewCount(g, ss, size)
  {
    hide Gpt.Valid, Rebuildable, AlignedEntries, DataLo, DataHi, RoundUp;
    RebuildableNumbers(g, size);
    NothingWraps(g, ss, size);
    var aligned, first, last := ScanRanges(g, ss, size);
    if !aligned {
      return false, 0;
    }
    assert first < last;
    var tableBytes := RequiredBytes(g.used, ss);
    assert size >= last;
    if size - last < U64(tableBytes + ss) {
      return false, 0;
    }
    if U64(tableBytes + U64(2 * ss)) > first {
      return false, 0;
    }
    var maxEntries := Min(size - ss - last, first - 2 * ss) / ENTRY_BYTES;
    assert maxEntries >= g.used;
    return true, Min(maxEntries, g.header.entryCount);
  }

  lemma HeaderConstants(g: Gpt, off: nat, ss: nat, size: nat)
    requires SectorSize(ss) && Rebuildable(g, size) && Convertible(g, ss, size)
    requires off == 1 || off == Sectors(size, ss) - 1
    ensures |g.header.diskGuid| == 16 && 6 <= Sectors(size, ss) < TWO63
  {
  }

  /** Lines 418-461, in 64-bit arithmetic. */
  method BuildHeader(g: Gpt, off: nat, ss: nat, size: nat, count: nat) returns (h: Header)
    requires SectorSize(ss) && Rebuildable(g, size) && Convertible(g, ss, size) && count == NewCount(g, ss, size)
    requires off == 1 || off == Sectors(size, ss) - 1
    ensures h == BlankHeader(g, off, ss, size)
  {
    hide Gpt.Valid, Rebuildable, Convertible, AlignedEntries, DataLo, DataHi, NewCount, RoundUp, RequiredBytes, Span,
         Sectors;
    RebuildableNumbers(g, size);
    CountFits(g, ss, size);
    HeaderConstants(g, off, ss, size);
    NothingWraps(g, ss, size);
    HeaderFieldsInRange(g, ss, size);
    var sectors := Sectors(size, ss);
    var tableBytes := RequiredBytes(count, ss);
    var firstUsable := RoundUp(Max(U64(Span(g.header.firstUsable, g.sectorSize)), U64(tableBytes + U64(2 * ss))), ss);
    var unusable := Min(U64(Span(g.header.lastUsable + 1, g.sectorSize)), size - U64(tableBytes + ss));
    ghost var blank := BlankHeader(g, off, ss, size);
    assert blank.firstUsable == Sectors(firstUsable, ss) && blank.lastUsable == Sectors(unusable, ss) - 1;
    h := Header(SIGNATURE, g.header.revision, g.header.headerSize, 0, 0,
                off, if off == 1 then sectors - 1 else 1,
                Sectors(firstUsable, ss), Sectors(unusable, ss) - 1,
                g.header.diskGuid, if off == 1 then 2 else sectors - 1 - Sectors(tableBytes, ss),
                count, ENTRY_BYTES, 0);
  }

  /** gpt_adjust_sectors. */
  method AdjustSectors(crc: Checksum, g: Gpt, off: nat, ss: nat, size: nat) returns (r: Adjusted)
    requires SectorSize(ss) && Rebuildable(g, size)
    requires off == 1 || off == Sectors(size, ss) - 1
    ensures r == Adjust(crc, g, off, ss, size)
  {
    hide Gpt.Valid, Rebuildable, Convertible, NewCount, RequiredBytes, AdjustTable, BlankHeader;
    RebuildableNumbers(g, size);
    var convertible, count := ChooseCount(g, ss, size);
    if !convertible {
      return ConstraintExit;
    }
    CountFits(g, ss, size);
    var h := BuildHeader(g, off, ss, size, count);
    var buffer := FillTable(g, ss, count, RequiredBytes(count, ss));
    assert buffer[..ENTRY_BYTES * count] == NewTable(g, ss, size);
    h := h.(tableCrc := crc(buffer[..ENTRY_BYTES * count]));
    h := h.(headerCrc := crc(EncodeHeader(h)));
    r := Ok(Rebuilt(h, buffer[..]));
  }

  lemma CountFits(g: Gpt, ss: nat, size: nat)
    requires SectorSize(ss) && Rebuildable(g, size) && Convertible(g, ss, size)
    ensures Fits(g, ss, size, g.used) && NewCount(g, ss, size) <= g.header.entryCount
    ensures ENTRY_BYTES * NewCount(g, ss, size) <= RequiredBytes(NewCount(g, ss, size), ss)
  {
    CountIsLargestThatFits(g, ss, size);
  }
}
