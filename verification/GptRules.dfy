/** What the checks of gpt.c accept, as rules on the bytes of the device: section 5.3.2 of the UEFI Specification for
    the header, 5.3.3 for the entries, 5.2.3 for the protective MBR. */
module GptRules {
  import opened Bytes
  import opened GptFormat
  import opened GptCheck
  import opened GptAdjust
  import opened GptMain

  /** Little-endian numbers at a place. */
  function N4(b: seq<byte>, at: nat): nat
    requires at + 4 <= |b|
  {
    UnLe(b[at..at + 4])
  }

  function N8(b: seq<byte>, at: nat): nat
    requires at + 8 <= |b|
  {
    UnLe(b[at..at + 8])
  }

  // ----- The header -----

  /** Signature, revision, checksum, header size, and an entry size that is legal. */
  predicate HeaderIntact(crc: Checksum, b: seq<byte>, ss: nat)
    requires |b| >= 92
  {
    && b[0..8] == [0x45, 0x46, 0x49, 0x20, 0x50, 0x41, 0x52, 0x54] // "EFI PART"
    && N4(b, 8) == 0x0001_0000
    && N4(b, 16) == crc(b[..16] + [0, 0, 0, 0] + b[20..92])
    && 92 <= N4(b, 12) <= ss
    && 128 <= N4(b, 84) <= ss
  }

  /** The usable range, and where the table and the other header are said to be. */
  predicate RangeSound(b: seq<byte>, off: nat)
    requires |b| >= 92
  {
    && 3 <= N8(b, 40) <= N8(b, 48)
    && (if off == 1 then N8(b, 72) == 2 && N8(b, 48) < N8(b, 32)
        else N8(b, 32) == 1 && N8(b, 48) < N8(b, 72) < N8(b, 24))
  }

  /** Bytes between the start of the table and what comes next, as computed. */
  function TableRoom(b: seq<byte>, off: nat, ss: nat): int
    requires |b| >= 92
  {
    (if off == 1 then N8(b, 40) - N8(b, 72) else N8(b, 24) - N8(b, 72)) * ss % TWO64
  }

  predicate TableFits(b: seq<byte>, off: nat, ss: nat, sectors: nat)
    requires |b| >= 92
  {
    && (off == 1 ==> N8(b, 32) < sectors)
    && N4(b, 80) >= 1 && 128 * N4(b, 80) <= TableRoom(b, off, ss)
  }

  /** A header that is accepted at sector `off`. */
  predicate HeaderRule(crc: Checksum, b: seq<byte>, off: nat, ss: nat, sectors: nat)
    requires |b| >= 92
  {
    && HeaderIntact(crc, b, ss) && N4(b, 84) == 128 && RangeSound(b, off) && TableFits(b, off, ss, sectors)
    && 128 * N4(b, 80) <= 0x10_0000
  }

  /** A header that ends the program: larger entries, or a larger table, than the tool supports. */
  predicate HeaderTooLarge(crc: Checksum, b: seq<byte>, off: nat, ss: nat, sectors: nat)
    requires |b| >= 92
  {
    && HeaderIntact(crc, b, ss)
    && (N4(b, 84) > 128
        || (RangeSound(b, off) && TableFits(b, off, ss, sectors) && 128 * N4(b, 80) > 0x10_0000))
  }

  /** A primary header whose backup would lie behind the end of the device. */
  predicate HeaderTruncated(crc: Checksum, b: seq<byte>, off: nat, ss: nat, sectors: nat)
    requires |b| >= 92
  {
    HeaderIntact(crc, b, ss) && N4(b, 84) == 128 && RangeSound(b, off) && off == 1 && N8(b, 32) >= sectors
  }

  /** The bytes that the header checksum is taken over. */
  lemma ChecksumBytes(b: seq<byte>)
    requires |b| >= 92
    ensures EncodeHeader(ParseHeader(b).(headerCrc := 0)) == b[..16] + [0, 0, 0, 0] + b[20..92]
  {
    hide EncodeHeader, UnLe;
    var c := b[..16] + [0, 0, 0, 0] + b[20..92];
    EncodeParseHeader(c);
    assert c[..92] == c;
    assert c[0..8] == b[0..8] && c[8..12] == b[8..12] && c[12..16] == b[12..16] && c[16..20] == [0, 0, 0, 0];
    assert c[20..92] == b[20..92];
    SameInTail(b, c, 20, 24); SameInTail(b, c, 24, 32); SameInTail(b, c, 32, 40); SameInTail(b, c, 40, 48);
    SameInTail(b, c, 48, 56); SameInTail(b, c, 56, 72); SameInTail(b, c, 72, 80); SameInTail(b, c, 80, 84);
    SameInTail(b, c, 84, 88); SameInTail(b, c, 88, 92);
    ZeroNumber();
    assert ParseHeader(c) == ParseHeader(b).(headerCrc := 0);
  }

  lemma SameInTail(b: seq<byte>, c: seq<byte>, i: nat, j: nat)
    requires |b| >= 92 && |c| >= 92 && c[20..92] == b[20..92] && 20 <= i <= j <= 92
    ensures c[i..j] == b[i..j]
  {
    SliceOfSlice(b, 20, 92, i - 20, j - 20);
    SliceOfSlice(c, 20, 92, i - 20, j - 20);
  }

  lemma ZeroNumber()
    ensures UnLe([0, 0, 0, 0]) == 0
  {
    LittleEndian4([0, 0, 0, 0]);
  }

  lemma HeaderNumbersAre(b: seq<byte>)
    requires |b| >= 92
    ensures var h := ParseHeader(b);
            && h.signature == b[0..8] && h.revision == N4(b, 8) && h.headerSize == N4(b, 12) && h.headerCrc == N4(b, 16)
            && h.reserved == N4(b, 20) && h.myLba == N8(b, 24) && h.alternateLba == N8(b, 32)
            && h.firstUsable == N8(b, 40) && h.lastUsable == N8(b, 48) && h.diskGuid == b[56..72]
            && h.entryLba == N8(b, 72) && h.entryCount == N4(b, 80) && h.entrySize == N4(b, 84)
            && h.tableCrc == N4(b, 88)
  {
    hide UnLe;
  }

  lemma RoomIs(b: seq<byte>, off: nat, ss: nat)
    requires |b| >= 92 && SectorSize(ss) && RangeSound(b, off)
    ensures U64(Span(TableSectors(ParseHeader(b), off), ss)) == TableRoom(b, off, ss)
  {
    hide N4, N8, ParseHeader;
    HeaderNumbersAre(b);
  }

  /** Which headers are accepted, and which end the program. */
  lemma HeaderVerdictExactly(crc: Checksum, b: seq<byte>, off: nat, ss: nat, sectors: nat)
    requires |b| >= 92 && SectorSize(ss)
    ensures var v := CheckHeader(crc, ParseHeader(b), off, ss, sectors);
            && (v.Accepted? <==> HeaderRule(crc, b, off, ss, sectors))
            && (v.Accepted? ==> v.tableBytes == 128 * N4(b, 80))
            && (v == HeaderExit(3) <==> HeaderTooLarge(crc, b, off, ss, sectors))
            && (v == HeaderExit(8) <==> HeaderTruncated(crc, b, off, ss, sectors))
            && (v.HeaderExit? ==> v.code == 3 || v.code == 8)
  {
    hide N4, N8, ParseHeader, EncodeHeader, TableRoom, Span, U64, TableSectors;
    HeaderNumbersAre(b);
    ChecksumBytes(b);
    if RangeSound(b, off) {
      RoomIs(b, off, ss);
    }
  }

  // ----- The table -----

  function TableAt(b: seq<byte>, ss: nat): nat
    requires |b| >= 92
  {
    N8(b, 72) * ss % TWO64
  }

  predicate EntryUsed(e: seq<byte>)
    requires |e| == 128
  {
    e[0..16] != [0, 0, 0, 0, 0, 0, 0, 0, 0, 0, 0, 0, 0, 0, 0, 0]
  }

  /** The table that the header b points to can be read. */
  predicate TableReadable(d: Disk, b: seq<byte>, ss: nat)
    requires |b| >= 92 && SectorSize(ss)
  {
    TableAt(b, ss) < TWO63 && TableAt(b, ss) + (128 * N4(b, 80) + ss - 1) / ss * ss <= |d|
  }

  /** It has the checksum the header gives, and its used entries lie in the usable range. */
  predicate TableSound(crc: Checksum, t: seq<byte>, b: seq<byte>)
    requires |b| >= 92 && |t| == 128 * N4(b, 80)
  {
    && N4(b, 88) == crc(t)
    && forall i :: 0 <= i < N4(b, 80) && EntryUsed(Cell(t, i)) ==>
         N8(b, 40) <= N8(Cell(t, i), 32) && N8(Cell(t, i), 40) <= N8(b, 48)
  }

  /** Entry i of a table, 128 bytes. */
  function Cell(t: seq<byte>, i: nat): (e: seq<byte>)
    requires 128 * i + 128 <= |t|
    ensures |e| == 128
  {
    t[128 * i..128 * i + 128]
  }

  lemma ReadableRange(d: Disk, b: seq<byte>, ss: nat)
    requires |b| >= 92 && SectorSize(ss) && TableReadable(d, b, ss)
    ensures TableAt(b, ss) + 128 * N4(b, 80) <= |d|
  {
    hide N4, TableAt;
  }

  ghost function TableBytesAt(d: Disk, b: seq<byte>, ss: nat): (t: seq<byte>)
    requires |b| >= 92 && SectorSize(ss) && TableReadable(d, b, ss)
    ensures |t| == 128 * N4(b, 80)
  {
    ReadableRange(d, b, ss);
    d[TableAt(b, ss)..TableAt(b, ss) + 128 * N4(b, 80)]
  }

  lemma SoundExactly(crc: Checksum, t: seq<byte>, b: seq<byte>)
    requires |b| >= 92 && |t| == 128 * N4(b, 80) && N4(b, 84) == 128
    ensures var h := ParseHeader(b);
            && |t| == ENTRY_BYTES * h.entryCount
            && (TableSound(crc, t, b) <==> h.tableCrc == crc(t) && EntriesUsable(h, t, h.entryCount))
            && (UsedCount(t, h.entryCount) == 0 <==> forall i :: 0 <= i < N4(b, 80) ==> !EntryUsed(Cell(t, i)))
  {
    hide ParseHeader, N4;
    HeaderNumbersAre(b);
    var n := N4(b, 80);
    forall i | 0 <= i < n
      ensures EntryAt(t, i) == Cell(t, i) && (Used(EntryAt(t, i)) <==> EntryUsed(Cell(t, i)))
      ensures Start(EntryAt(t, i)) == N8(Cell(t, i), 32) && End(EntryAt(t, i)) == N8(Cell(t, i), 40)
    {
      assert Zeros(16) == [0, 0, 0, 0, 0, 0, 0, 0, 0, 0, 0, 0, 0, 0, 0, 0];
    }
    hide Used, Start, End, EntryUsed, N8;
  }

  /** With a header that follows the rule, the table decides. */
  lemma TableDecides(crc: Checksum, d: Disk, off: nat, ss: nat)
    requires Device(d, ss) && Sectors(|d|, ss) >= 6 && off < Sectors(|d|, ss) && (off == 1 || off >= 5)
    requires HeaderRule(crc, SectorAt(d, off, ss), off, ss, Sectors(|d|, ss))
    ensures var r, b := ReadGpt(crc, d, off, ss), SectorAt(d, off, ss);
            if TableAt(b, ss) >= TWO63 then r == Exit(0)
            else if !TableReadable(d, b, ss) then r == Exit(2)
            else if !TableSound(crc, TableBytesAt(d, b, ss), b) then r == Missing
            else if forall i :: 0 <= i < N4(b, 80) ==> !EntryUsed(Cell(TableBytesAt(d, b, ss), i)) then r == Exit(3)
            else r.Found? && r.gpt.header == ParseHeader(b) && r.gpt.table == TableBytesAt(d, b, ss)
  {
    hide CheckHeader, ParseHeader, N4, N8, HeaderRule, TableSound, EntriesUsable, UsedCount, EntryUsed, SectorAt,
         RoundUp, TableAt, Cell, Sectors;
    var b, sectors := SectorAt(d, off, ss), Sectors(|d|, ss);
    HeaderVerdictExactly(crc, b, off, ss, sectors);
    RuleFacts(crc, b, off, ss, sectors);
    HeaderNumbersAre(b);
    OffsetIs(b, ss);
    if TableReadable(d, b, ss) {
      SoundExactly(crc, TableBytesAt(d, b, ss), b);
    }
  }

  lemma HeaderDecides(crc: Checksum, d: Disk, off: nat, ss: nat)
    requires Device(d, ss) && Sectors(|d|, ss) >= 6 && off < Sectors(|d|, ss) && (off == 1 || off >= 5)
    requires !HeaderRule(crc, SectorAt(d, off, ss), off, ss, Sectors(|d|, ss))
    ensures var r, b, sectors := ReadGpt(crc, d, off, ss), SectorAt(d, off, ss), Sectors(|d|, ss);
            r == if HeaderTooLarge(crc, b, off, ss, sectors) then Exit(3)
                 else if HeaderTruncated(crc, b, off, ss, sectors) then Exit(8)
                 else Missing
  {
    hide CheckHeader, ParseHeader, HeaderRule, HeaderTooLarge, HeaderTruncated, SectorAt, ReadTable;
    HeaderVerdictExactly(crc, SectorAt(d, off, ss), off, ss, Sectors(|d|, ss));
  }

  /** The search at one position, read off the bytes of the device. */
  lemma ReadGptExactly(crc: Checksum, d: Disk, off: nat, ss: nat)
    requires Device(d, ss) && Sectors(|d|, ss) >= 6 && off < Sectors(|d|, ss) && (off == 1 || off >= 5)
    ensures var r, b, sectors := ReadGpt(crc, d, off, ss), SectorAt(d, off, ss), Sectors(|d|, ss);
            var rule := HeaderRule(crc, b, off, ss, sectors);
            && (r.Found? <==> rule && TableReadable(d, b, ss) && TableSound(crc, TableBytesAt(d, b, ss), b)
                              && exists i :: 0 <= i < N4(b, 80) && EntryUsed(Cell(TableBytesAt(d, b, ss), i)))
            && (r.Found? ==> r.gpt.header == ParseHeader(b) && r.gpt.table == TableBytesAt(d, b, ss))
            && (r == Exit(0) <==> rule && TableAt(b, ss) >= TWO63)
            && (r == Exit(2) <==> rule && TableAt(b, ss) < TWO63 && !TableReadable(d, b, ss))
            && (r == Exit(3) <==>
                  || HeaderTooLarge(crc, b, off, ss, sectors)
                  || (rule && TableReadable(d, b, ss) && TableSound(crc, TableBytesAt(d, b, ss), b)
                      && forall i :: 0 <= i < N4(b, 80) ==> !EntryUsed(Cell(TableBytesAt(d, b, ss), i))))
            && (r == Exit(8) <==> HeaderTruncated(crc, b, off, ss, sectors))
            && (r.Exit? ==> r.code in {0, 2, 3, 8}) && !r.Abort?
  {
    hide ReadGpt, ParseHeader, N4, HeaderRule, HeaderTooLarge, HeaderTruncated, TableSound, EntryUsed, SectorAt,
         TableBytesAt, Cell, Sectors, TableAt;
    var b, sectors := SectorAt(d, off, ss), Sectors(|d|, ss);
    RuleExcludes(crc, b, off, ss, sectors);
    if HeaderRule(crc, b, off, ss, sectors) {
      RuleFacts(crc, b, off, ss, sectors);
      TableDecides(crc, d, off, ss);
    } else {
      HeaderDecides(crc, d, off, ss);
    }
  }

  lemma RuleFacts(crc: Checksum, b: seq<byte>, off: nat, ss: nat, sectors: nat)
    requires |b| >= 92 && HeaderRule(crc, b, off, ss, sectors)
    ensures N4(b, 84) == 128 && !HeaderTooLarge(crc, b, off, ss, sectors) && !HeaderTruncated(crc, b, off, ss, sectors)
  {
    hide N4, N8, TableRoom;
  }

  lemma RuleExcludes(crc: Checksum, b: seq<byte>, off: nat, ss: nat, sectors: nat)
    requires |b| >= 92
    ensures !(HeaderTooLarge(crc, b, off, ss, sectors) && HeaderTruncated(crc, b, off, ss, sectors))
  {
    hide N4, N8, TableRoom;
  }

  lemma OffsetIs(b: seq<byte>, ss: nat)
    requires |b| >= 92 && SectorSize(ss)
    ensures TableOffset(ParseHeader(b), ss) == TableAt(b, ss)
    ensures RoundUp(128 * N4(b, 80), ss) == (128 * N4(b, 80) + ss - 1) / ss * ss
  {
    hide ParseHeader, N4, N8;
    HeaderNumbersAre(b);
  }

  // ----- The protective MBR -----

  /** Boot signature; a first record of type EE that starts at block 1; three empty records; and no BIOS parameter
      block, unless that is waived. */
  predicate MbrRule(b: seq<byte>, skipBpb: bool)
    requires |b| == 512
  {
    && b[510] == 0x55 && b[511] == 0xAA && b[450] == 0xEE
    && (forall i :: 462 <= i < 510 ==> b[i] == 0)
    && N4(b, 454) == 1
    && (skipBpb || forall i :: 3 <= i < 14 ==> b[i] == 0)
  }

  /** Exactly these are let through, with the size of the device in the first record and nothing else changed; the
      others end the program, with 4 for a missing signature, 5 for a wrong start, and 3 for the rest. */
  lemma CheckMbrExactly(mbr: seq<byte>, sectors: nat, skipBpb: bool)
    requires |mbr| == 512 && sectors >= 1
    ensures var v := CheckMbr(mbr, sectors, skipBpb);
            && (v.MbrOk? <==> MbrRule(mbr, skipBpb))
            && (v.MbrOk? ==>
                  && |v.mbr| == 512 && (forall i :: 0 <= i < 512 && !(458 <= i < 462) ==> v.mbr[i] == mbr[i])
                  && N4(v.mbr, 458) == if sectors > 0x1_0000_0000 then 0xFFFF_FFFF else sectors - 1)
            && (v == MbrExit(4) <==> !(mbr[510] == 0x55 && mbr[511] == 0xAA))
            && (v == MbrExit(5) <==>
                  && mbr[510] == 0x55 && mbr[511] == 0xAA && mbr[450] == 0xEE
                  && (forall i :: 462 <= i < 510 ==> mbr[i] == 0) && N4(mbr, 454) != 1)
            && (v.MbrExit? ==> v.code in {3, 4, 5})
  {
    hide Le, UnLe;
    ZeroRange(mbr, 462, 510);
    ZeroRange(mbr, 3, 14);
    if CheckMbr(mbr, sectors, skipBpb).MbrOk? {
      CheckMbrIdempotent(mbr, sectors, skipBpb);
      var fixed := CheckMbr(mbr, sectors, skipBpb).mbr;
      forall i | 0 <= i < 512 && !(458 <= i < 462) ensures fixed[i] == mbr[i] {
        if i < 458 {
          assert fixed[i] == fixed[..458][i];
        } else {
          assert fixed[i] == fixed[462..][i - 462];
        }
      }
    }
  }

  lemma ZeroRange(b: seq<byte>, lo: nat, hi: nat)
    requires lo <= hi <= |b|
    ensures b[lo..hi] == Zeros(hi - lo) <==> forall i :: lo <= i < hi ==> b[i] == 0
  {
    if b[lo..hi] == Zeros(hi - lo) {
      forall i | lo <= i < hi ensures b[i] == 0 {
        assert b[lo..hi][i - lo] == 0;
      }
    }
  }

  /** The tool leaves every device alone whose MBR breaks the rule. */
  lemma OtherDisksAreRefused(crc: Checksum, d: Disk, ss: nat, skipBpb: bool)
    requires Device(d, ss) && Sectors(|d|, ss) >= 6
    ensures !MbrRule(d[..512], skipBpb) ==>
              SearchDevice(crc, d, ss, skipBpb) in {SearchExit(3), SearchExit(4), SearchExit(5)}
    ensures MbrRule(d[..512], skipBpb) ==> SearchDevice(crc, d, ss, skipBpb) == Find(crc, d, ss)
  {
    hide CheckMbr, MbrRule, Find;
    CheckMbrExactly(d[..512], Sectors(|d|, ss), skipBpb);
  }

  /** Without a table for either sector size the tool exits with 5, or with 3 if the device is not a whole number of
      4096-byte blocks. */
  lemma NoTableExits(crc: Checksum, d: Disk, ss: nat)
    requires Device(d, ss) && Sectors(|d|, ss) >= 6
    requires ReadGpt(crc, d, 1, ss).Missing? && ReadGpt(crc, d, Sectors(|d|, ss) - 1, ss).Missing?
    ensures |d| % 4096 != 0 ==> Find(crc, d, ss) == SearchExit(3)
    ensures |d| % 4096 == 0 ==>
              var other := if ss == 512 then 4096 else 512;
              && Device(d, other) && Sectors(|d|, other) >= 1
              && (ReadGpt(crc, d, 1, other).Missing? && ReadGpt(crc, d, Sectors(|d|, other) - 1, other).Missing? ==>
                    Find(crc, d, ss) == SearchExit(5))
  {
    hide ReadGpt;
    OtherDevice(d, ss);
  }

  // ----- The rebuild -----

  /** A table of n entries, in whole sectors. */
  function SectorsFor(n: nat, ss: nat): nat
    requires ss > 0
  {
    (128 * n + ss - 1) / ss * ss
  }

  /** Where entry i starts and ends on the device, from its bytes. */
  function CellStart(g: Gpt, i: nat): int
    requires g.Valid() && i < g.header.entryCount
  {
    N8(Cell(g.table, i), 32) * g.sectorSize
  }

  function CellEnd(g: Gpt, i: nat): int
    requires g.Valid() && i < g.header.entryCount
  {
    (N8(Cell(g.table, i), 40) + 1) * g.sectorSize
  }

  lemma CellRange(g: Gpt, i: nat)
    requires g.Valid() && i < g.header.entryCount
    ensures StartByte(g, i) == CellStart(g, i) && EndByte(g, i) == CellEnd(g, i)
    ensures UsedAt(g, i) <==> EntryUsed(Cell(g.table, i))
  {
    assert EntryAt(g.table, i) == Cell(g.table, i);
    assert Zeros(16) == [0, 0, 0, 0, 0, 0, 0, 0, 0, 0, 0, 0, 0, 0, 0, 0];
    hide Gpt.Valid, UnLe;
  }

  /** n entries fit if every partition leaves room for the MBR, a header and the table in front, and for the table and
      a header behind. */
  lemma FitsExactly(g: Gpt, ss: nat, size: nat, n: nat)
    requires Rebuildable(g, size) && g.Valid() && SectorSize(ss)
    ensures Fits(g, ss, size, n) <==>
              forall i :: 0 <= i < g.used && UsedAt(g, i) ==>
                && 2 * ss + SectorsFor(n, ss) <= StartByte(g, i)
                && EndByte(g, i) + SectorsFor(n, ss) + ss <= size
  {
    hide Rebuildable, Gpt.Valid, DataLo, DataHi, UsedAt, StartByte, EndByte, SectorsFor, RequiredBytes;
    RequiredIs(n, ss);
    RebuildableNumbers(g, size);
    var i, j := DataWitnesses(g, size);
    forall k | 0 <= k < g.used && UsedAt(g, k) ensures DataLo(g) <= StartByte(g, k) && EndByte(g, k) <= DataHi(g) {
      UsedEntryBounds(g, size, k);
    }
  }

  lemma RequiredIs(n: nat, ss: nat)
    requires SectorSize(ss)
    ensures RequiredBytes(n, ss) == SectorsFor(n, ss)
  {
  }

  /** A table can be converted exactly when every partition begins and ends on a boundary of the new sector size and
      leaves room for the used entries at both ends. */
  lemma ConvertibleExactly(g: Gpt, ss: nat, size: nat)
    requires Rebuildable(g, size) && g.Valid() && SectorSize(ss)
    ensures Convertible(g, ss, size) <==>
              forall i :: 0 <= i < g.used && EntryUsed(Cell(g.table, i)) ==>
                && CellStart(g, i) % ss == 0 && CellEnd(g, i) % ss == 0
                && 2 * ss + SectorsFor(g.used, ss) <= CellStart(g, i)
                && CellEnd(g, i) + SectorsFor(g.used, ss) + ss <= size
  {
    hide Rebuildable, Gpt.Valid, UsedAt, StartByte, EndByte, CellStart, CellEnd, EntryUsed, Cell, Fits, SectorsFor;
    RebuildableNumbers(g, size);
    FitsExactly(g, ss, size, g.used);
    forall i | 0 <= i < g.used
      ensures StartByte(g, i) == CellStart(g, i) && EndByte(g, i) == CellEnd(g, i)
      ensures UsedAt(g, i) <==> EntryUsed(Cell(g.table, i))
      ensures Aligned(StartByte(g, i), ss) <==> CellStart(g, i) % ss == 0
      ensures Aligned(EndByte(g, i), ss) <==> CellEnd(g, i) % ss == 0
    {
      CellRange(g, i);
    }
    hide Aligned;
  }

  /** What create_new_gpt does before its first write: exit with 6 exactly on a table that cannot be converted, fail
      its assertion exactly on one that can, with a header size above the new sector size, and else go on. */
  lemma VerdictExactly(g: Gpt, ss: nat, size: nat)
    requires Rebuildable(g, size) && g.Valid() && SectorSize(ss)
    ensures var fits := forall i :: 0 <= i < g.used && EntryUsed(Cell(g.table, i)) ==>
                          && CellStart(g, i) % ss == 0 && CellEnd(g, i) % ss == 0
                          && 2 * ss + SectorsFor(g.used, ss) <= CellStart(g, i)
                          && CellEnd(g, i) + SectorsFor(g.used, ss) + ss <= size;
            && (Verdict(g, ss, size) == ExitsWith(6) <==> !fits)
            && (Verdict(g, ss, size) == AssertFails <==> fits && g.header.headerSize > ss)
            && (Verdict(g, ss, size) == Completed <==> fits && g.header.headerSize <= ss)
  {
    hide Rebuildable, Convertible, EntryUsed, Cell, CellStart, CellEnd, SectorsFor, Gpt.Valid;
    RebuildableNumbers(g, size);
    ConvertibleExactly(g, ss, size);
  }
}
