/** On-disk structures of a GUID Partition Table (UEFI Specification, section 5.3):
    the 92-byte header, the 128-byte entries and the device they live on. */
module GptFormat {
  import opened Bytes

  const HEADER_BYTES := 92
  const ENTRY_BYTES := 128
  /** "EFI PART" */
  const SIGNATURE: seq<byte> := [0x45, 0x46, 0x49, 0x20, 0x50, 0x41, 0x52, 0x54]
  const REVISION: uint32 := 0x0001_0000

  predicate SectorSize(ss: int) {
    ss == 512 || ss == 4096
  }

  /** n sectors in bytes: the product n * ss, spelt out per size to keep the arithmetic linear. */
  function Span(n: int, ss: int): int
    requires SectorSize(ss)
  {
    if ss == 512 then 512 * n else 4096 * n
  }

  /** Whole sectors in `bytes`: the quotient bytes / ss. */
  function Sectors(bytes: int, ss: int): int
    requires SectorSize(ss)
  {
    if ss == 512 then bytes / 512 else bytes / 4096
  }

  predicate Aligned(bytes: int, ss: int)
    requires SectorSize(ss)
  {
    if ss == 512 then bytes % 512 == 0 else bytes % 4096 == 0
  }

  lemma SpanAligned(n: int, ss: int)
    requires SectorSize(ss)
    ensures Aligned(Span(n, ss), ss)
  {
  }

  /** round_to_next_sector: the smallest multiple of the sector size that is at least `value`. */
  function RoundUp(value: nat, ss: int): (r: nat)
    requires SectorSize(ss)
    ensures value <= r < value + ss && Aligned(r, ss)
  {
    SpanAligned(Sectors(value + ss - 1, ss), ss);
    Span(Sectors(value + ss - 1, ss), ss)
  }

  lemma RoundUpLeast(value: nat, ss: int, bound: nat)
    requires SectorSize(ss) && Aligned(bound, ss) && value <= bound
    ensures RoundUp(value, ss) <= bound
  {
  }

  datatype Header = Header(
    signature: seq<byte>, revision: uint32, headerSize: uint32, headerCrc: uint32, reserved: uint32,
    myLba: uint64, alternateLba: uint64, firstUsable: uint64, lastUsable: uint64,
    diskGuid: seq<byte>, entryLba: uint64, entryCount: uint32, entrySize: uint32, tableCrc: uint32)
  {
    predicate WellFormed() {
      |signature| == 8 && |diskGuid| == 16
    }

    /** gpt_partition_table_bytes: exact, since both factors have 32 bits. */
    function TableBytes(): nat {
      entryCount * entrySize
    }
  }

  /** Bytes 0..56 of the header, then the rest. */
  function EncodeFront(h: Header): (s: seq<byte>)
    requires h.WellFormed()
    ensures |s| == 56
  {
    h.signature + (Le(h.revision, 4) + (Le(h.headerSize, 4) + (Le(h.headerCrc, 4) + (Le(h.reserved, 4)
    + (Le(h.myLba, 8) + (Le(h.alternateLba, 8) + (Le(h.firstUsable, 8) + Le(h.lastUsable, 8))))))))
  }

  function EncodeBack(h: Header): (s: seq<byte>)
    requires h.WellFormed()
    ensures |s| == 36
  {
    h.diskGuid + (Le(h.entryLba, 8) + (Le(h.entryCount, 4) + (Le(h.entrySize, 4) + Le(h.tableCrc, 4))))
  }

  function EncodeHeader(h: Header): (s: seq<byte>)
    requires h.WellFormed()
    ensures |s| == HEADER_BYTES
  {
    EncodeFront(h) + EncodeBack(h)
  }

  function ParseHeader(b: seq<byte>): (h: Header)
    requires |b| >= HEADER_BYTES
    ensures h.WellFormed()
  {
    Header(b[0..8], Field4(b, 8), Field4(b, 12), Field4(b, 16), Field4(b, 20),
           Field8(b, 24), Field8(b, 32), Field8(b, 40), Field8(b, 48),
           b[56..72], Field8(b, 72), Field4(b, 80), Field4(b, 84), Field4(b, 88))
  }

  /** The piece that begins at `at`, and what follows it. */
  lemma PieceAt(b: seq<byte>, at: nat, piece: seq<byte>, rest: seq<byte>)
    requires at <= |b| && b[at..] == piece + rest
    ensures at + |piece| <= |b| && b[at..at + |piece|] == piece && b[at + |piece|..] == rest
  {
    assert b[at..][..|piece|] == piece && b[at..][|piece|..] == rest;
  }

  lemma FrontPieces(h: Header, f: seq<byte>)
    requires h.WellFormed() && f == EncodeFront(h)
    ensures f[0..8] == h.signature && f[8..12] == Le(h.revision, 4) && f[12..16] == Le(h.headerSize, 4)
    ensures f[16..20] == Le(h.headerCrc, 4) && f[20..24] == Le(h.reserved, 4)
    ensures f[24..32] == Le(h.myLba, 8) && f[32..40] == Le(h.alternateLba, 8)
    ensures f[40..48] == Le(h.firstUsable, 8) && f[48..56] == Le(h.lastUsable, 8)
  {
    hide Le;
    var r8 := Le(h.lastUsable, 8);
    var r7 := Le(h.firstUsable, 8) + r8;
    var r6 := Le(h.alternateLba, 8) + r7;
    var r5 := Le(h.myLba, 8) + r6;
    var r4 := Le(h.reserved, 4) + r5;
    var r3 := Le(h.headerCrc, 4) + r4;
    var r2 := Le(h.headerSize, 4) + r3;
    var r1 := Le(h.revision, 4) + r2;
    assert f[0..] == f;
    PieceAt(f, 0, h.signature, r1);
    PieceAt(f, 8, Le(h.revision, 4), r2);
    PieceAt(f, 12, Le(h.headerSize, 4), r3);
    PieceAt(f, 16, Le(h.headerCrc, 4), r4);
    PieceAt(f, 20, Le(h.reserved, 4), r5);
    PieceAt(f, 24, Le(h.myLba, 8), r6);
    PieceAt(f, 32, Le(h.alternateLba, 8), r7);
    PieceAt(f, 40, Le(h.firstUsable, 8), r8);
    assert f[48..56] == f[48..];
  }

  lemma BackPieces(h: Header, f: seq<byte>)
    requires h.WellFormed() && f == EncodeBack(h)
    ensures f[0..16] == h.diskGuid && f[16..24] == Le(h.entryLba, 8) && f[24..28] == Le(h.entryCount, 4)
    ensures f[28..32] == Le(h.entrySize, 4) && f[32..36] == Le(h.tableCrc, 4)
  {
    hide Le;
    var r4 := Le(h.tableCrc, 4);
    var r3 := Le(h.entrySize, 4) + r4;
    var r2 := Le(h.entryCount, 4) + r3;
    var r1 := Le(h.entryLba, 8) + r2;
    assert f[0..] == f;
    PieceAt(f, 0, h.diskGuid, r1);
    PieceAt(f, 16, Le(h.entryLba, 8), r2);
    PieceAt(f, 24, Le(h.entryCount, 4), r3);
    PieceAt(f, 28, Le(h.entrySize, 4), r4);
    assert f[32..36] == f[32..];
  }

  lemma ParseFront(h: Header, b: seq<byte>)
    requires h.WellFormed() && |b| >= HEADER_BYTES && b[0..56] == EncodeFront(h)
    ensures var p := ParseHeader(b);
            p.signature == h.signature && p.revision == h.revision && p.headerSize == h.headerSize
            && p.headerCrc == h.headerCrc && p.reserved == h.reserved && p.myLba == h.myLba
            && p.alternateLba == h.alternateLba && p.firstUsable == h.firstUsable && p.lastUsable == h.lastUsable
  {
    hide Le, UnLe, EncodeFront;
    FrontPieces(h, b[0..56]);
    SliceOfSlice(b, 0, 56, 0, 8); SliceOfSlice(b, 0, 56, 8, 12); SliceOfSlice(b, 0, 56, 12, 16);
    SliceOfSlice(b, 0, 56, 16, 20); SliceOfSlice(b, 0, 56, 20, 24); SliceOfSlice(b, 0, 56, 24, 32);
    SliceOfSlice(b, 0, 56, 32, 40); SliceOfSlice(b, 0, 56, 40, 48); SliceOfSlice(b, 0, 56, 48, 56);
    Field4At(b, 8, h.revision); Field4At(b, 12, h.headerSize); Field4At(b, 16, h.headerCrc);
    Field4At(b, 20, h.reserved);
    Field8At(b, 24, h.myLba); Field8At(b, 32, h.alternateLba);
    Field8At(b, 40, h.firstUsable); Field8At(b, 48, h.lastUsable);
  }

  lemma ParseBack(h: Header, b: seq<byte>)
    requires h.WellFormed() && |b| >= HEADER_BYTES && b[56..92] == EncodeBack(h)
    ensures var p := ParseHeader(b);
            p.diskGuid == h.diskGuid && p.entryLba == h.entryLba && p.entryCount == h.entryCount
            && p.entrySize == h.entrySize && p.tableCrc == h.tableCrc
  {
    hide Le, UnLe, EncodeBack;
    BackPieces(h, b[56..92]);
    SliceOfSlice(b, 56, 92, 0, 16); SliceOfSlice(b, 56, 92, 16, 24); SliceOfSlice(b, 56, 92, 24, 28);
    SliceOfSlice(b, 56, 92, 28, 32); SliceOfSlice(b, 56, 92, 32, 36);
    Field8At(b, 72, h.entryLba);
    Field4At(b, 80, h.entryCount); Field4At(b, 84, h.entrySize); Field4At(b, 88, h.tableCrc);
  }

  /** Reading back a written header sector gives the header that was written. */
  lemma ParseEncodeHeader(h: Header, padding: seq<byte>)
    requires h.WellFormed()
    ensures ParseHeader(EncodeHeader(h) + padding) == h
  {
    var b := EncodeHeader(h) + padding;
    assert b[0..] == EncodeFront(h) + (EncodeBack(h) + padding);
    PieceAt(b, 0, EncodeFront(h), EncodeBack(h) + padding);
    PieceAt(b, 56, EncodeBack(h), padding);
    ParseFront(h, b);
    ParseBack(h, b);
  }

  /** The parsed fields hold all 92 bytes, so a checksum over a re-encoded header is a
      checksum over the bytes on disk. */
  lemma EncodeParseHeader(b: seq<byte>)
    requires |b| >= HEADER_BYTES
    ensures EncodeHeader(ParseHeader(b)) == b[..HEADER_BYTES]
  {
    hide Le, UnLe;
    LeField(b, 8, 4); LeField(b, 12, 4); LeField(b, 16, 4); LeField(b, 20, 4);
    LeField(b, 24, 8); LeField(b, 32, 8); LeField(b, 40, 8); LeField(b, 48, 8);
    Glue(b, 40, 48, 56); Glue(b, 32, 40, 56); Glue(b, 24, 32, 56); Glue(b, 20, 24, 56); Glue(b, 16, 20, 56);
    Glue(b, 12, 16, 56); Glue(b, 8, 12, 56); Glue(b, 0, 8, 56);
    assert EncodeFront(ParseHeader(b)) == b[0..56];
    EncodeParseBack(b);
    Glue(b, 0, 56, 92);
  }

  lemma EncodeParseBack(b: seq<byte>)
    requires |b| >= HEADER_BYTES
    ensures EncodeBack(ParseHeader(b)) == b[56..92]
  {
    hide Le, UnLe;
    LeField(b, 72, 8); LeField(b, 80, 4); LeField(b, 84, 4); LeField(b, 88, 4);
    Glue(b, 84, 88, 92); Glue(b, 80, 84, 92); Glue(b, 72, 80, 92); Glue(b, 56, 72, 92);
  }

  // ----- Partition entries: 128 raw bytes each -----

  type Entry = e: seq<byte> | |e| == 128 witness seq(128, _ => 0)

  /** unused_entry: the type GUID is all zero. */
  predicate Used(e: Entry) {
    e[..16] != Zeros(16)
  }

  function Start(e: Entry): uint64 {
    Field8(e, 32)
  }

  function End(e: Entry): uint64 {
    Field8(e, 40)
  }

  function WithRange(e: Entry, start: uint64, end: uint64): (r: Entry)
    ensures Start(r) == start && End(r) == end
    ensures r[..32] == e[..32] && r[48..] == e[48..]
    ensures Used(r) <==> Used(e)
  {
    var r := e[..32] + Le(start, 8) + Le(end, 8) + e[48..];
    assert r[32..40] == Le(start, 8) && r[40..48] == Le(end, 8);
    Field8At(r, 32, start); Field8At(r, 40, end);
    assert r[..16] == e[..16];
    r
  }

  lemma SameRangeSameEntry(e: Entry, f: Entry)
    requires e[..32] == f[..32] && e[48..] == f[48..] && Start(e) == Start(f) && End(e) == End(f)
    ensures e == f
  {
    hide Start, End;
    EntryParts(e);
    EntryParts(f);
  }

  lemma EntryParts(e: Entry)
    ensures e == e[..32] + (Le(Start(e), 8) + Le(End(e), 8)) + e[48..]
  {
    LeField(e, 32, 8); LeField(e, 40, 8);
    Glue(e, 32, 40, 48); Glue(e, 0, 32, 48); Glue(e, 0, 48, 128);
  }

  /** A table as struct GPT holds it: header, entry array, index after the last used entry, sector size. */
  datatype Gpt = Gpt(header: Header, table: seq<byte>, used: nat, sectorSize: nat) {
    predicate Valid() {
      && SectorSize(sectorSize)
      && header.WellFormed()
      && header.entrySize == ENTRY_BYTES
      && |table| == ENTRY_BYTES * header.entryCount
      && 0 < used <= header.entryCount
      && (forall i :: used <= i < header.entryCount ==> !Used(EntryAt(table, i)))
      && Used(EntryAt(table, used - 1))
    }
  }

  function EntryAt(table: seq<byte>, i: nat): Entry
    requires ENTRY_BYTES * i + ENTRY_BYTES <= |table|
  {
    table[ENTRY_BYTES * i..ENTRY_BYTES * i + ENTRY_BYTES]
  }

  // ----- The device -----

  type Disk = seq<byte>

  datatype Write = Write(offset: nat, data: seq<byte>) {
    function EndOffset(): nat {
      offset + |data|
    }

    predicate Fits(size: nat) {
      EndOffset() <= size
    }

    /** No byte of [lo, hi) is written. */
    predicate Avoids(lo: int, hi: int) {
      EndOffset() <= lo || hi <= offset
    }
  }

  /** One sync_pwrite. */
  function Apply(d: Disk, w: Write): (r: Disk)
    requires w.Fits(|d|)
    ensures |r| == |d|
    ensures r[w.offset..w.EndOffset()] == w.data
  {
    d[..w.offset] + w.data + d[w.EndOffset()..]
  }

  predicate AllFit(ws: seq<Write>, size: nat) {
    forall i :: 0 <= i < |ws| ==> ws[i].Fits(size)
  }

  predicate AllAvoid(ws: seq<Write>, lo: int, hi: int) {
    forall i :: 0 <= i < |ws| ==> ws[i].Avoids(lo, hi)
  }

  function ApplyAll(d: Disk, ws: seq<Write>): (r: Disk)
    requires AllFit(ws, |d|)
    ensures |r| == |d|
    decreases |ws|
  {
    if ws == [] then d else Apply(ApplyAll(d, ws[..|ws| - 1]), ws[|ws| - 1])
  }

  /** The device when the run stops after k of the writes. */
  function AfterCrash(d: Disk, ws: seq<Write>, k: nat): (r: Disk)
    requires AllFit(ws, |d|) && k <= |ws|
    ensures |r| == |d|
  {
    ApplyAll(d, ws[..k])
  }

  lemma ApplyKeeps(d: Disk, w: Write, lo: nat, hi: nat)
    requires w.Fits(|d|) && lo <= hi <= |d| && w.Avoids(lo, hi)
    ensures Apply(d, w)[lo..hi] == d[lo..hi]
  {
    var r := Apply(d, w);
    forall i | lo <= i < hi ensures r[i] == d[i] {
    }
  }

  /** Bytes that no write touches keep their value. */
  lemma {:induction false} ApplyAllKeeps(d: Disk, ws: seq<Write>, lo: nat, hi: nat)
    requires AllFit(ws, |d|) && lo <= hi <= |d| && AllAvoid(ws, lo, hi)
    ensures ApplyAll(d, ws)[lo..hi] == d[lo..hi]
    decreases |ws|
  {
    if ws != [] {
      ApplyAllKeeps(d, ws[..|ws| - 1], lo, hi);
      ApplyKeeps(ApplyAll(d, ws[..|ws| - 1]), ws[|ws| - 1], lo, hi);
    }
  }

  lemma {:induction false} ApplyAllConcat(d: Disk, a: seq<Write>, b: seq<Write>)
    requires AllFit(a, |d|) && AllFit(b, |d|)
    ensures AllFit(a + b, |d|)
    ensures ApplyAll(d, a + b) == ApplyAll(ApplyAll(d, a), b)
    decreases |b|
  {
    if b == [] {
      assert a + b == a;
    } else {
      var front := b[..|b| - 1];
      ApplyAllConcat(d, a, front);
      assert (a + b)[..|a + b| - 1] == a + front && (a + b)[|a + b| - 1] == b[|b| - 1];
      assert AllFit(a + b, |d|);
      assert ApplyAll(d, a + b) == Apply(ApplyAll(d, a + front), b[|b| - 1]);
    }
  }
}
