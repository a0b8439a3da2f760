/** The qfile stream: fixed-size headers, each followed by a name and, for files and links, a payload. */
module Wire {
  import opened Bytes
  import opened Utf8

  const MAX_PATH_LENGTH := 16384
  const HEADER_SIZE := 32
  const LLONG_MAX := 0x7FFF_FFFF_FFFF_FFFF

  const ENOENT := 2
  const EINTR := 4
  const EACCES := 13
  const EEXIST := 17
  const ENOTDIR := 20
  const ENAMETOOLONG := 36
  const EREMOTEIO := 121
  const EDQUOT := 122
  const LEGAL_EOF := 31415926

  /** struct file_header */
  datatype FileHeader = FileHeader(namelen: uint32, mode: uint32, filelen: uint64,
                                   atime: uint32, atimeNsec: uint32, mtime: uint32, mtimeNsec: uint32)

  const END_MARKER: FileHeader := FileHeader(0, 0, 0, 0, 0, 0, 0)

  predicate IsReg(mode: int) {
    mode / 4096 % 16 == 8
  }

  predicate IsDir(mode: int) {
    mode / 4096 % 16 == 4
  }

  predicate IsLnk(mode: int) {
    mode / 4096 % 16 == 10
  }

  function EncodeFileHeader(h: FileHeader): (s: seq<byte>)
    ensures |s| == HEADER_SIZE
  {
    Le(h.namelen, 4) + Le(h.mode, 4) + Le(h.filelen, 8)
    + Le(h.atime, 4) + Le(h.atimeNsec, 4) + Le(h.mtime, 4) + Le(h.mtimeNsec, 4)
  }

  function ParseFileHeader(b: seq<byte>): FileHeader
    requires |b| >= HEADER_SIZE
  {
    FileHeader(Field4(b, 0), Field4(b, 4), Field8(b, 8), Field4(b, 16), Field4(b, 20), Field4(b, 24), Field4(b, 28))
  }

  lemma ParseEncodeFileHeader(h: FileHeader, rest: seq<byte>)
    ensures ParseFileHeader(EncodeFileHeader(h) + rest) == h
  {
    hide Le;
    var b := EncodeFileHeader(h) + rest;
    assert b[0..4] == Le(h.namelen, 4);
    assert b[4..8] == Le(h.mode, 4);
    assert b[8..16] == Le(h.filelen, 8);
    assert b[16..20] == Le(h.atime, 4);
    assert b[20..24] == Le(h.atimeNsec, 4);
    assert b[24..28] == Le(h.mtime, 4);
    assert b[28..32] == Le(h.mtimeNsec, 4);
    Field4At(b, 0, h.namelen); Field4At(b, 4, h.mode); Field8At(b, 8, h.filelen); Field4At(b, 16, h.atime);
    Field4At(b, 20, h.atimeNsec); Field4At(b, 24, h.mtime); Field4At(b, 28, h.mtimeNsec);
  }

  /** struct file_header, byte by byte. */
  lemma FileHeaderLayout(h: FileHeader)
    ensures var b := EncodeFileHeader(h);
            && |b| == 32 && UnLe(b[0..4]) == h.namelen && UnLe(b[4..8]) == h.mode && UnLe(b[8..16]) == h.filelen
            && UnLe(b[16..20]) == h.atime && UnLe(b[20..24]) == h.atimeNsec
            && UnLe(b[24..28]) == h.mtime && UnLe(b[28..32]) == h.mtimeNsec
  {
    hide Le, UnLe;
    var b := EncodeFileHeader(h);
    assert b + [] == b;
    ParseEncodeFileHeader(h, []);
    FieldsAre(b);
  }

  lemma FieldsAre(b: seq<byte>)
    requires |b| == 32
    ensures var h := ParseFileHeader(b);
            && h.namelen == UnLe(b[0..4]) && h.mode == UnLe(b[4..8]) && h.filelen == UnLe(b[8..16])
            && h.atime == UnLe(b[16..20]) && h.atimeNsec == UnLe(b[20..24])
            && h.mtime == UnLe(b[24..28]) && h.mtimeNsec == UnLe(b[28..32])
  {
    hide UnLe;
  }

  /** The end marker is 32 zero bytes. */
  lemma MarkerIsBlank()
    ensures EncodeFileHeader(END_MARKER) == Zeros(32)
  {
    ZeroField(4);
    ZeroField(8);
  }

  lemma {:induction false} ZeroField(n: nat)
    ensures Le(0, n) == Zeros(n)
  {
    if n > 0 {
      ZeroField(n - 1);
    }
  }

  /** Bytes of a record after its header: the name, and the payload of a file or link. */
  function BodyLength(h: FileHeader): nat {
    h.namelen + if IsReg(h.mode) || IsLnk(h.mode) then h.filelen else 0
  }

  /** Where the end marker ends, by the framing alone: records are skipped by the lengths in their headers.
      |s| + 1 if the marker is not there. */
  function MarkerEnd(s: seq<byte>): (n: nat)
    ensures HEADER_SIZE <= n <= |s| || n == |s| + 1
    decreases |s|
  {
    if |s| < HEADER_SIZE then |s| + 1
    else
      var h := ParseFileHeader(s);
      var next := HEADER_SIZE + BodyLength(h);
      if h.namelen == 0 then HEADER_SIZE
      else if next > |s| then |s| + 1
      else next + MarkerEnd(s[next..])
  }

  /** A buffer read as a C string: up to its first NUL, or all of it with a NUL appended. */
  function AsCString(b: seq<byte>): (s: seq<byte>)
    ensures CString(s) && |s| <= |b| + 1
  {
    if b == [] || b[0] == 0 then [0] else [b[0]] + AsCString(b[1..])
  }

  lemma {:induction false} AsCStringOf(p: seq<byte>, rest: seq<byte>)
    requires forall i :: 0 <= i < |p| ==> p[i] != 0
    requires rest == [] || rest[0] == 0
    ensures AsCString(p + rest) == p + [0]
  {
    if p == [] {
      assert p + rest == rest;
    } else {
      assert (p + rest)[1..] == p[1..] + rest;
      AsCStringOf(p[1..], rest);
    }
  }
}
