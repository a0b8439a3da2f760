/** Headers that a search may come upon without being meant to: left over from earlier, or entries that read as one. */
module GptStray {
  import opened Bytes
  import opened GptFormat
  import opened GptCheck
  import opened GptAdjust
  import opened GptFix
  import opened GptMain
  import opened GptRoundTrip

  function HeaderAt(d: Disk, off: nat, ss: nat): (h: Header)
    requires Device(d, ss) && off < Sectors(|d|, ss)
    ensures h.WellFormed()
  {
    ParseHeader(SectorAt(d, off, ss))
  }

  // ----- Stale headers -----

  /** h is accepted at `off`, the bytes of r in the place of its table have its checksum, and the used entries among
      them lie in its usable range. */
  predicate Matches(crc: Checksum, r: Disk, h: Header, off: nat, ss: nat)
    requires h.WellFormed() && SectorSize(ss)
  {
    hide CheckHeader, EntriesUsable;
    && CheckHeader(crc, h, off, ss, Sectors(|r|, ss)).Accepted?
    && TableOffset(h, ss) + h.TableBytes() <= |r|
    && (AcceptedFacts(crc, h, off, ss, Sectors(|r|, ss));
        var table := r[TableOffset(h, ss)..TableOffset(h, ss) + h.TableBytes()];
        h.tableCrc == crc(table) && EntriesUsable(h, table, h.entryCount))
  }

  lemma MatchesFacts(crc: Checksum, r: Disk, h: Header, off: nat, ss: nat)
    requires h.WellFormed() && SectorSize(ss) && Matches(crc, r, h, off, ss)
    ensures TableOffset(h, ss) + h.TableBytes() <= |r| && h.TableBytes() == ENTRY_BYTES * h.entryCount
  {
    hide CheckHeader, EntriesUsable, TableOffset;
    AcceptedFacts(crc, h, off, ss, Sectors(|r|, ss));
  }

  /** What the search then makes of it. */
  function StaleTable(crc: Checksum, r: Disk, h: Header, off: nat, ss: nat): (t: Lookup)
    requires h.WellFormed() && SectorSize(ss) && Matches(crc, r, h, off, ss)
    ensures t.Found? || t.Exit?
  {
    hide Matches, UsedCount, TableOffset;
    MatchesFacts(crc, r, h, off, ss);
    var table := r[TableOffset(h, ss)..TableOffset(h, ss) + h.TableBytes()];
    var used := UsedCount(table, h.entryCount);
    if used == 0 then Exit(EXIT_UNSUPPORTED) else Found(Gpt(h, table, used, ss))
  }

  /** A header that was passed over on d is passed over on r, unless its table matches there. */
  lemma StaleRead(crc: Checksum, d: Disk, r: Disk, off: nat, ss: nat)
    requires Device(d, ss) && |r| == |d| && Sectors(|d|, ss) >= 6 && off < Sectors(|d|, ss) && (off == 1 || off >= 5)
    requires ReadGpt(crc, d, off, ss).Missing? && SectorAt(r, off, ss) == SectorAt(d, off, ss)
    ensures var h := HeaderAt(d, off, ss);
            ReadGpt(crc, r, off, ss) == if Matches(crc, r, h, off, ss) then StaleTable(crc, r, h, off, ss) else Missing
  {
    hide CheckHeader, ParseHeader, SectorAt, UsedCount, EntriesUsable;
  }

  // ----- Entries that read as a header of 4096-byte sectors -----

  /** As a header, b has all that is tested before the entry size, and an entry size that is legal but not
      supported. */
  predicate Unsupported(crc: Checksum, b: seq<byte>)
    requires |b| >= HEADER_BYTES
  {
    var h := ParseHeader(b);
    && h.signature == SIGNATURE && h.revision == REVISION && h.headerCrc == HeaderChecksum(crc, h)
    && HEADER_BYTES <= h.headerSize <= 4096 && ENTRY_BYTES < h.entrySize <= 4096
  }

  lemma ParsePrefix(b: seq<byte>, c: seq<byte>)
    requires |b| >= HEADER_BYTES && |c| >= HEADER_BYTES && b[..HEADER_BYTES] == c[..HEADER_BYTES]
    ensures ParseHeader(b) == ParseHeader(c)
  {
    hide ParseHeader, EncodeHeader;
    EncodeParseHeader(b);
    EncodeParseHeader(c);
    ParseEncodeHeader(ParseHeader(b), b[HEADER_BYTES..]);
    ParseEncodeHeader(ParseHeader(c), b[HEADER_BYTES..]);
  }

  /** The LBAs of a used entry lie where a header has its AlternateLBA and FirstUsableLBA; they keep it from being
      accepted. */
  lemma EntryNeverAccepted(crc: Checksum, e: Entry, off: nat, sectors: nat)
    requires Used(e) ==> 3 <= Start(e) <= End(e)
    ensures CheckHeader(crc, ParseHeader(e), off, 4096, sectors)
         == if Unsupported(crc, e) then HeaderExit(EXIT_UNSUPPORTED) else Rejected
  {
    hide EncodeHeader;
    var h := ParseHeader(e);
    assert h.alternateLba == Start(e) && h.firstUsable == End(e);
    assert h.signature == e[0..8];
    if !Used(e) {
      assert e[0..8][0] == e[..16][0] == 0 != SIGNATURE[0];
    }
  }

  /** A sector that begins with an entry of a table. */
  lemma EntryRead(crc: Checksum, r: Disk, off: nat, e: Entry)
    requires Device(r, 4096) && Sectors(|r|, 4096) >= 6 && off < Sectors(|r|, 4096) && (off == 1 || off >= 5)
    requires SectorAt(r, off, 4096)[..ENTRY_BYTES] == e && (Used(e) ==> 3 <= Start(e) <= End(e))
    ensures ReadGpt(crc, r, off, 4096) == if Unsupported(crc, e) then Exit(EXIT_UNSUPPORTED) else Missing
  {
    hide CheckHeader, ReadTable, ParseHeader, Unsupported;
    var s := SectorAt(r, off, 4096);
    assert s[..HEADER_BYTES] == s[..ENTRY_BYTES][..HEADER_BYTES];
    ParsePrefix(s, e);
    EntryNeverAccepted(crc, e, off, Sectors(|r|, 4096));
  }

  /** Entry i of the new table is such a header. */
  ghost predicate MimicAt(job: Job, i: nat)
    requires job.Valid()
  {
    i < NewCount(job.g, job.ss, job.size) && Unsupported(job.crc, EntryAt(NewTable(job.g, job.ss, job.size), i))
  }

  /** The entry that begins 4096 bytes from the start of the device. */
  const PRIMARY_INDEX := 24

  /** The entry that begins 4096 bytes before its end, or a negative number. */
  ghost function BackupIndex(job: Job): int
    requires job.Valid()
  {
    RequiredBytes(NewCount(job.g, job.ss, job.size), job.ss) / ENTRY_BYTES - 28
  }

  /** The table of a copy with 512-byte sectors puts such an entry where 4096-byte sectors have a header. */
  ghost predicate Mimicry(job: Job)
    requires job.Valid()
  {
    && job.ss == 512
    && (MimicAt(job, PRIMARY_INDEX) || (BackupIndex(job) >= 0 && MimicAt(job, BackupIndex(job))))
  }

  lemma NewEntrySane(job: Job, i: nat)
    requires job.Valid() && i < NewCount(job.g, job.ss, job.size)
    ensures var e := EntryAt(NewTable(job.g, job.ss, job.size), i); Used(e) ==> 3 <= Start(e) <= End(e)
  {
    hide Gpt.Valid, Rebuildable, Convertible, TablePlaced, NewCount, NewTable, EntryAt, Used, Start, End, NewHeader;
    RebuildableNumbers(job.g, job.size);
    CountFits(job.g, job.ss, job.size);
    if UsedAt(job.g, i) {
      UsedBelow(job.g, i);
      UsedEntrySurvives(job.crc, job.g, 1, job.ss, job.size, i);
      NewHeaderUsable(job.crc, job.g, 1, job.ss, job.size);
      HeaderFieldsInRange(job.g, job.ss, job.size);
    } else {
      UnusedEntryStays(job, i);
    }
  }

  /** The bytes at the place of entry i in the padded table: that entry, or zeros. */
  lemma PaddedEntry(job: Job, off: nat, i: nat) returns (e: Entry)
    requires CopyOf(job, off) && ENTRY_BYTES * i + ENTRY_BYTES <= |NewCopy(job, off).entries|
    ensures e == NewCopy(job, off).entries[ENTRY_BYTES * i..ENTRY_BYTES * i + ENTRY_BYTES]
    ensures Used(e) ==> 3 <= Start(e) <= End(e)
    ensures Unsupported(job.crc, e) <==> MimicAt(job, i)
  {
    hide Gpt.Valid, Rebuildable, Convertible, TablePlaced, NewCount, NewTable, NewHeader, RequiredBytes, Unsupported,
         Start, End;
    RebuildableNumbers(job.g, job.size);
    CountFits(job.g, job.ss, job.size);
    var table, count, x := NewTable(job.g, job.ss, job.size), NewCount(job.g, job.ss, job.size), ENTRY_BYTES * i;
    e := NewCopy(job, off).entries[x..x + ENTRY_BYTES];
    if i < count {
      assert e == table[x..x + ENTRY_BYTES] == EntryAt(table, i);
      NewEntrySane(job, i);
    } else {
      assert e == Zeros(ENTRY_BYTES);
      assert e[..16] == Zeros(16);
      BlankIsNoHeader(job.crc, e);
    }
  }

  lemma BlankIsNoHeader(crc: Checksum, e: Entry)
    requires e == Zeros(ENTRY_BYTES)
    ensures !Unsupported(crc, e)
  {
    assert ParseHeader(e).signature[0] == 0 != SIGNATURE[0];
  }
}
