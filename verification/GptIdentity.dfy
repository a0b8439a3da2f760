/** The rebuilt headers are headers of the same disk, and use the space as well as can be. */
module GptIdentity {
  import opened Bytes
  import opened GptFormat
  import opened GptCheck
  import opened GptAdjust
  import opened GptFix
  import opened GptRoundTrip
  import opened GptRules

  /** x is the least sector number such that no byte before `bound` is at or behind it. */
  ghost predicate LeastFrom(x: int, bound: int, ss: nat)
    requires SectorSize(ss)
  {
    Span(x, ss) >= bound && forall y: int :: Span(y, ss) >= bound ==> x <= y
  }

  /** x is the last sector that ends at or before `bound`. */
  ghost predicate GreatestTo(x: int, bound: int, ss: nat)
    requires SectorSize(ss)
  {
    Span(x + 1, ss) <= bound && forall y: int :: Span(y, ss) <= bound ==> y <= x + 1
  }

  lemma FirstIsLeast(g: Gpt, ss: nat, size: nat)
    requires Rebuildable(g, size) && g.Valid() && SectorSize(ss) && Convertible(g, ss, size)
    ensures var table := SectorsFor(NewCount(g, ss, size), ss);
            LeastFrom(FirstUsableLba(g, ss, size), Max(Span(g.header.firstUsable, g.sectorSize), 2 * ss + table), ss)
  {
    hide Rebuildable, Gpt.Valid, NewCount, DataLo, DataHi, SectorsFor, RequiredBytes;
    RebuildableNumbers(g, size);
    RequiredIs(NewCount(g, ss, size), ss);
  }

  lemma LastIsGreatest(g: Gpt, ss: nat, size: nat)
    requires Rebuildable(g, size) && g.Valid() && SectorSize(ss) && Convertible(g, ss, size)
    ensures var table := SectorsFor(NewCount(g, ss, size), ss);
            GreatestTo(LastUsableLba(g, ss, size),
                       Min(Span(g.header.lastUsable + 1, g.sectorSize), size - ss - table), ss)
  {
    hide Rebuildable, Gpt.Valid, NewCount, DataLo, DataHi, SectorsFor, RequiredBytes, RoundUp;
    RebuildableNumbers(g, size);
    RequiredIs(NewCount(g, ss, size), ss);
  }

  /** What the header h of a copy has in common with the old header g, and what it adds. */
  ghost predicate SameDisk(job: Job, off: nat, h: Header, g: Header)
    requires SectorSize(job.ss) && SectorSize(job.g.sectorSize)
  {
    && h.diskGuid == g.diskGuid && h.revision == g.revision && h.headerSize == g.headerSize && h.reserved == 0
    && h.myLba == off && h.alternateLba == (if off == 1 then Sectors(job.size, job.ss) - 1 else 1)
    && h.entrySize == 128
    && var table := SectorsFor(h.entryCount, job.ss);
       && LeastFrom(h.firstUsable, Max(Span(g.firstUsable, job.g.sectorSize), 2 * job.ss + table), job.ss)
       && GreatestTo(h.lastUsable, Min(Span(g.lastUsable + 1, job.g.sectorSize), job.size - job.ss - table), job.ss)
  }

  lemma CopyIsSameDisk(job: Job, off: nat)
    requires CopyOf(job, off)
    ensures SectorSize(job.g.sectorSize) && SameDisk(job, off, CopyAsRead(job, off).header, job.g.header)
  {
    hide Gpt.Valid, TablePlaced, CopyAsRead, NewCount, LeastFrom, GreatestTo, SectorsFor, FirstUsableLba, LastUsableLba,
         Sectors, Span, Fits, AlignedEntries;
    RebuildableNumbers(job.g, job.size);
    CopyHeaderFields(job, off);
    FirstIsLeast(job.g, job.ss, job.size);
    LastIsGreatest(job.g, job.ss, job.size);
  }

  /** The same in the bytes of the new header sector s and the old one b: disk GUID, revision and header size are the
      same; the reserved field is 0; the header gives its own position and that of the other copy; and the usable range
      is the largest that respects the old one and both new tables. */
  ghost predicate SameDiskBytes(job: Job, off: nat, s: seq<byte>, b: seq<byte>)
    requires SectorSize(job.ss) && SectorSize(job.g.sectorSize) && |s| >= 92 && |b| >= 92
  {
    && s[56..72] == b[56..72] && N4(s, 8) == N4(b, 8) && N4(s, 12) == N4(b, 12) && N4(s, 20) == 0
    && N8(s, 24) == off && N8(s, 32) == (if off == 1 then Sectors(job.size, job.ss) - 1 else 1)
    && N4(s, 84) == 128
    && var table := SectorsFor(N4(s, 80), job.ss);
       && LeastFrom(N8(s, 40), Max(Span(N8(b, 40), job.g.sectorSize), 2 * job.ss + table), job.ss)
       && GreatestTo(N8(s, 48), Min(Span(N8(b, 48) + 1, job.g.sectorSize), job.size - job.ss - table), job.ss)
  }

  lemma BytesSay(job: Job, off: nat, s: seq<byte>, b: seq<byte>)
    requires SectorSize(job.ss) && SectorSize(job.g.sectorSize) && |s| >= 92 && |b| >= 92
    requires SameDisk(job, off, ParseHeader(s), ParseHeader(b))
    ensures SameDiskBytes(job, off, s, b)
  {
    hide ParseHeader, N4, N8, LeastFrom, GreatestTo, SectorsFor, Sectors, Span, Max, Min;
    HeaderNumbersAre(s);
    HeaderNumbersAre(b);
  }

  /** After a run, for either new header sector against the one the run started from. */
  lemma SameDiskAfterRun(job: Job, d: Disk, off: nat)
    requires Started(job, d) && AllFit(FixWrites(job), |d|) && (off == 1 || off == Sectors(job.size, job.ss) - 1)
    ensures SectorSize(job.g.sectorSize) && job.source < Sectors(|d|, job.g.sectorSize) && off < Sectors(|d|, job.ss)
    ensures SameDiskBytes(job, off, SectorAt(ApplyAll(d, FixWrites(job)), off, job.ss),
                          SectorAt(d, job.source, job.g.sectorSize))
  {
    hide Job.Valid, FixWrites, ApplyAll, AllFit, ReadGpt, CopyAsRead, ParseHeader, CheckHeader, ReadTable, SectorAt,
         Sectors, SameDisk, SameDiskBytes;
    var r := ApplyAll(d, FixWrites(job));
    CopyIsSameDisk(job, off);
    FoundParts(job.crc, d, job.source, job.g.sectorSize, job.g);
    OneOfTheCopies(job, d, off);
    FoundParts(job.crc, r, off, job.ss, CopyAsRead(job, off));
    BytesSay(job, off, SectorAt(r, off, job.ss), SectorAt(d, job.source, job.g.sectorSize));
  }

  lemma OneOfTheCopies(job: Job, d: Disk, off: nat)
    requires Started(job, d) && AllFit(FixWrites(job), |d|) && (off == 1 || off == Sectors(job.size, job.ss) - 1)
    ensures var r := ApplyAll(d, FixWrites(job));
            Device(r, job.ss) && ReadGpt(job.crc, r, off, job.ss) == Found(CopyAsRead(job, off))
  {
    hide FixWrites, ApplyAll, AllFit, ReadGpt, CopyAsRead, Rebuildable, Convertible, TablePlaced;
    BothCopiesAfterRun(job, d);
  }
}
