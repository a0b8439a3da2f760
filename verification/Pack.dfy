/** The sender: do_fs_walk turns a tree of files into a stream of records. */
module Pack {
  import opened Bytes
  import opened Crc32
  import opened Paths
  import opened Wire
  import opened FileSystem
  import opened IoAll

  /** The fields of struct stat that are sent. */
  datatype Stat = Stat(mode: uint32, atime: int, atimeNsec: nat, mtime: int, mtimeNsec: nat)

  /** A file, link or directory as lstat and readdir show it. */
  datatype Item =
    | FileItem(stat: Stat, data: seq<byte>)
    | LinkItem(stat: Stat, target: seq<byte>)
    | DirItem(stat: Stat, children: seq<Entry>)
  datatype Entry = Entry(name: Name, item: Item)

  function U32(x: int): uint32 {
    x % TWO32
  }

  /** The header single_file_processor fills in; seconds and nanoseconds are cut to 32 bits. */
  function HeaderFor(path: seq<byte>, stat: Stat, filelen: nat): FileHeader {
    FileHeader(U32(|path| + 1), stat.mode, U64(filelen),
               U32(stat.atime), U32(stat.atimeNsec), U32(stat.mtime), U32(stat.mtimeNsec))
  }

  /** write_headers: the header, and namelen bytes of the name with its NUL. */
  function HeaderBytes(path: seq<byte>, stat: Stat, filelen: nat): seq<byte> {
    EncodeFileHeader(HeaderFor(path, stat, filelen)) + (path + [0])[..Min(U32(|path| + 1), |path| + 1)]
  }

  /** do_fs_walk: a directory is sent before and after its contents. */
  function Walk(path: seq<byte>, item: Item, ignoreSymlinks: bool): seq<byte>
    decreases item, 1
  {
    match item
    case FileItem(stat, data) => HeaderBytes(path, stat, |data|) + data
    case LinkItem(stat, target) => if ignoreSymlinks then [] else HeaderBytes(path, stat, |target|) + target
    case DirItem(stat, children) =>
      HeaderBytes(path, stat, 0) + WalkAll(path, children, ignoreSymlinks) + HeaderBytes(path, stat, 0)
  }

  /** What single_file_processor sends for one entry. */
  function Record(path: seq<byte>, item: Item): seq<byte> {
    match item
    case FileItem(stat, data) => HeaderBytes(path, stat, |data|) + data
    case LinkItem(stat, target) => HeaderBytes(path, stat, |target|) + target
    case DirItem(stat, _) => HeaderBytes(path, stat, 0)
  }

  function ChildPath(path: seq<byte>, name: Name): seq<byte> {
    path + [SLASH] + name
  }

  /** The readdir loop. */
  function WalkAll(path: seq<byte>, es: seq<Entry>, ignoreSymlinks: bool): seq<byte>
    decreases es, 0
  {
    if es == [] then []
    else Walk(ChildPath(path, es[0].name), es[0].item, ignoreSymlinks) + WalkAll(path, es[1..], ignoreSymlinks)
  }

  /** A whole transfer: one walk for each top-level entry, then the end marker. */
  function WalkTop(es: seq<Entry>, ignoreSymlinks: bool): seq<byte> {
    if es == [] then [] else Walk(es[0].name, es[0].item, ignoreSymlinks) + WalkTop(es[1..], ignoreSymlinks)
  }

  function Stream(es: seq<Entry>, ignoreSymlinks: bool): seq<byte> {
    WalkTop(es, ignoreSymlinks) + EncodeFileHeader(END_MARKER)
  }

  lemma {:induction false} WalkAllStep(path: seq<byte>, es: seq<Entry>, i: nat, ignoreSymlinks: bool)
    requires i < |es|
    ensures WalkAll(path, es[..i + 1], ignoreSymlinks)
         == WalkAll(path, es[..i], ignoreSymlinks) + Walk(ChildPath(path, es[i].name), es[i].item, ignoreSymlinks)
    decreases i
  {
    hide Walk, ChildPath;
    if i == 0 {
      assert es[..1][1..] == [];
    } else {
      WalkAllStep(path, es[1..], i - 1, ignoreSymlinks);
      assert es[..i + 1][1..] == es[1..][..i] && es[..i][1..] == es[1..][..i - 1];
    }
  }

  lemma {:induction false} WalkAllParts(path: seq<byte>, es: seq<Entry>, i: nat, ignoreSymlinks: bool)
    requires i <= |es|
    ensures WalkAll(path, es, ignoreSymlinks)
         == WalkAll(path, es[..i], ignoreSymlinks) + WalkAll(path, es[i..], ignoreSymlinks)
    decreases i
  {
    hide Walk, ChildPath;
    if i > 0 {
      WalkAllParts(path, es[1..], i - 1, ignoreSymlinks);
      assert es[..i][1..] == es[1..][..i - 1] && es[1..][i - 1..] == es[i..];
    }
  }

  lemma {:induction false} WalkTopParts(es: seq<Entry>, i: nat, ignoreSymlinks: bool)
    requires i <= |es|
    ensures WalkTop(es, ignoreSymlinks) == WalkTop(es[..i], ignoreSymlinks) + WalkTop(es[i..], ignoreSymlinks)
    decreases i
  {
    hide Walk;
    if i > 0 {
      WalkTopParts(es[1..], i - 1, ignoreSymlinks);
      assert es[..i][1..] == es[1..][..i - 1] && es[1..][i - 1..] == es[i..];
    }
  }

  lemma WalkTopStep(es: seq<Entry>, i: nat, ignoreSymlinks: bool)
    requires i < |es|
    ensures WalkTop(es[..i + 1], ignoreSymlinks)
         == WalkTop(es[..i], ignoreSymlinks) + Walk(es[i].name, es[i].item, ignoreSymlinks)
  {
    hide Walk;
    var front := es[..i + 1];
    WalkTopParts(front, i, ignoreSymlinks);
    assert front[..i] == es[..i] && front[i..] == [es[i]] && [es[i]][1..] == [];
  }

  lemma WalkTopNothing(ignoreSymlinks: bool)
    ensures WalkTop([], ignoreSymlinks) == []
  {
  }

  lemma NothingToWalk(path: seq<byte>, ignoreSymlinks: bool)
    ensures WalkAll(path, [], ignoreSymlinks) == []
  {
  }

  lemma Assoc(a: seq<byte>, b: seq<byte>, c: seq<byte>)
    ensures (a + b) + c == a + (b + c)
  {
  }

  // ----- The sender as written: every write goes through the running checksum -----

  /** Some part of b, from its start, has been appended. */
  ghost predicate Partly(before: seq<byte>, now: seq<byte>, b: seq<byte>) {
    exists n :: 0 <= n <= |b| && now == before + b[..n]
  }

  lemma PartlyAll(before: seq<byte>, b: seq<byte>)
    ensures Partly(before, before + b, b)
  {
    assert b[..|b|] == b;
  }

  /** Part of a is part of a + b. */
  lemma PartlyMore(before: seq<byte>, now: seq<byte>, a: seq<byte>, b: seq<byte>)
    requires Partly(before, now, a)
    ensures Partly(before, now, a + b)
  {
    var n :| 0 <= n <= |a| && now == before + a[..n];
    assert (a + b)[..n] == a[..n];
  }

  /** All of a and part of b is part of a + b. */
  lemma PartlyNext(before: seq<byte>, now: seq<byte>, a: seq<byte>, b: seq<byte>)
    requires Partly(before + a, now, b)
    ensures Partly(before, now, a + b)
  {
    var n :| 0 <= n <= |b| && now == (before + a) + b[..n];
    assert (a + b)[..|a| + n] == a + b[..n];
  }

  class Sender {
    var crc32Sum: bv32
    const out: Sink
    /** How reads from the files that are sent are cut. */
    const cuts: seq<Event>

    /** qfile_pack_init */
    constructor (out: Sink, cuts: seq<Event>)
      requires out.data == [] && Calm(cuts)
      ensures Valid() && this.out == out && this.cuts == cuts
    {
      this.out, this.cuts, crc32Sum := out, cuts, 0;
      new;
      CrcNothing(0);
    }

    /** The checksum covers exactly what has been sent. */
    ghost predicate Valid()
      reads this, out
    {
      Calm(cuts) && crc32Sum == Crc(0, out.data)
    }

    /** What a step that should append b has done: all of it, or part of it and then a failed write. */
    twostate predicate Appends(b: seq<byte>, ok: bool)
      reads this, out
    {
      && Partly(old(out.data), out.data, b)
      && (ok ==> Valid() && out.data == old(out.data) + b)
      && (Undisturbed(old(out.events)) ==> ok && Undisturbed(out.events))
    }

    /** write_all_with_crc */
    method WriteAllWithCrc(b: seq<byte>) returns (ok: bool)
      requires Valid()
      modifies this, out
      ensures Appends(b, ok)
    {
      hide Crc;
      crc32Sum := ComputeBuf(crc32Sum, b);
      CrcConcat(0, out.data, b);
      ok := out.WriteAll(b);
      assert b[..|b|] == b;
    }

    /** write_headers; a failed write ends the program. */
    method WriteHeaders(path: seq<byte>, stat: Stat, filelen: nat) returns (ok: bool)
      requires Valid()
      modifies this, out
      ensures Appends(HeaderBytes(path, stat, filelen), ok)
    {
      hide Crc;
      ghost var sent := out.data;
      var h := HeaderFor(path, stat, filelen);
      var head, name := EncodeFileHeader(h), (path + [0])[..Min(h.namelen, |path| + 1)];
      ok := WriteAllWithCrc(head);
      if !ok {
        PartlyMore(sent, out.data, head, name);
        return;
      }
      ok := WriteAllWithCrc(name);
      PartlyNext(sent, out.data, head, name);
    }

    /** copy_file from a file to the stream. */
    method CopyPayload(data: seq<byte>) returns (ok: bool)
      requires Valid()
      modifies this, out
      ensures Appends(data, ok)
    {
      hide Crc;
      ghost var sent := out.data;
      ghost var before := crc32Sum;
      var file := new Source(data, cuts);
      var status, crc, moved := CopyFile(out, file, |data|, crc32Sum);
      CrcConcat(0, sent, moved);
      crc32Sum := crc;
      ok := status == CopyOk;
      ghost var n :| 0 <= n <= |moved| && out.data == sent + moved[..n];
      assert data[..n] == moved[..n];
    }

    /** single_file_processor: header and payload of one entry. */
    method SingleFile(path: seq<byte>, item: Item) returns (ok: bool)
      requires Valid()
      modifies this, out
      ensures Appends(Record(path, item), ok)
    {
      hide Crc, HeaderBytes, Partly;
      ghost var sent := out.data;
      match item
      case FileItem(stat, data) =>
        ok := WriteHeaders(path, stat, |data|);
        if !ok {
          PartlyMore(sent, out.data, HeaderBytes(path, stat, |data|), data);
          return;
        }
        ok := CopyPayload(data);
        PartlyNext(sent, out.data, HeaderBytes(path, stat, |data|), data);
        Assoc(sent, HeaderBytes(path, stat, |data|), data);
      case LinkItem(stat, target) =>
        ok := WriteHeaders(path, stat, |target|);
        if !ok {
          PartlyMore(sent, out.data, HeaderBytes(path, stat, |target|), target);
          return;
        }
        ok := WriteAllWithCrc(target);
        PartlyNext(sent, out.data, HeaderBytes(path, stat, |target|), target);
        Assoc(sent, HeaderBytes(path, stat, |target|), target);
      case DirItem(stat, _) =>
        ok := WriteHeaders(path, stat, 0);
    }

    /** do_fs_walk */
    method FsWalk(path: seq<byte>, item: Item, ignoreSymlinks: bool) returns (ok: bool)
      requires Valid()
      modifies this, out
      ensures Appends(Walk(path, item, ignoreSymlinks), ok)
      decreases item, 1
    {
      hide Crc, HeaderBytes, WalkAll, Partly;
      ghost var sent := out.data;
      if item.LinkItem? && ignoreSymlinks {
        PartlyAll(sent, []);
        assert sent + [] == sent;
        return true;
      }
      ok := SingleFile(path, item);
      if !item.DirItem? {
        return;
      }
      ghost var header, inner := HeaderBytes(path, item.stat, 0), WalkAll(path, item.children, ignoreSymlinks);
      if !ok {
        PartlyMore(sent, out.data, header, inner);
        PartlyMore(sent, out.data, header + inner, header);
        return;
      }
      ghost var filled := out.data;
      ok := WalkChildren(path, item.children, ignoreSymlinks);
      PartlyNext(sent, out.data, header, inner);
      if !ok {
        PartlyMore(sent, out.data, header + inner, header);
        return;
      }
      Assoc(sent, header, inner);
      ok := SingleFile(path, item);
      PartlyNext(sent, out.data, header + inner, header);
      Assoc(sent, header + inner, header);
    }

    /** The readdir loop of do_fs_walk. */
    method WalkChildren(path: seq<byte>, es: seq<Entry>, ignoreSymlinks: bool) returns (ok: bool)
      requires Valid()
      modifies this, out
      ensures Appends(WalkAll(path, es, ignoreSymlinks), ok)
      decreases es, 0
    {
      hide Crc, HeaderBytes, Walk, Partly;
      ghost var sent := out.data;
      NothingToWalk(path, ignoreSymlinks);
      assert es[..0] == [] && sent + [] == sent;
      var i := 0;
      while i < |es|
        invariant 0 <= i <= |es| && Valid()
        invariant out.data == sent + WalkAll(path, es[..i], ignoreSymlinks)
        invariant Undisturbed(old(out.events)) ==> Undisturbed(out.events)
      {
        ghost var done := WalkAll(path, es[..i], ignoreSymlinks);
        ghost var w := Walk(ChildPath(path, es[i].name), es[i].item, ignoreSymlinks);
        WalkAllStep(path, es, i, ignoreSymlinks);
        ok := FsWalk(ChildPath(path, es[i].name), es[i].item, ignoreSymlinks);
        if !ok {
          PartlyNext(sent, out.data, done, w);
          WalkAllParts(path, es, i + 1, ignoreSymlinks);
          PartlyMore(sent, out.data, done + w, WalkAll(path, es[i + 1..], ignoreSymlinks));
          return;
        }
        Assoc(sent, done, w);
        i := i + 1;
      }
      assert es[..i] == es;
      PartlyAll(sent, WalkAll(path, es, ignoreSymlinks));
      ok := true;
    }

    /** A transfer: one walk for each top-level entry, then the end marker. */
    method Transfer(es: seq<Entry>, ignoreSymlinks: bool) returns (ok: bool)
      requires Valid() && out.data == []
      modifies this, out
      ensures Partly([], out.data, Stream(es, ignoreSymlinks))
      ensures ok ==> out.data == Stream(es, ignoreSymlinks) && crc32Sum == Crc(0, Stream(es, ignoreSymlinks))
      ensures Undisturbed(old(out.events)) ==> ok
    {
      hide Crc, Walk, WalkTop, Partly, EncodeFileHeader;
      WalkTopNothing(ignoreSymlinks);
      assert es[..0] == [];
      var i := 0;
      while i < |es|
        invariant 0 <= i <= |es| && Valid()
        invariant out.data == WalkTop(es[..i], ignoreSymlinks)
        invariant Undisturbed(old(out.events)) ==> Undisturbed(out.events)
      {
        ghost var done, w := WalkTop(es[..i], ignoreSymlinks), Walk(es[i].name, es[i].item, ignoreSymlinks);
        ghost var rest := WalkTop(es[i + 1..], ignoreSymlinks);
        WalkTopStep(es, i, ignoreSymlinks);
        ok := FsWalk(es[i].name, es[i].item, ignoreSymlinks);
        if !ok {
          assert [] + done == done;
          PartlyNext([], out.data, done, w);
          WalkTopParts(es, i + 1, ignoreSymlinks);
          PartlyMore([], out.data, done + w, rest);
          PartlyMore([], out.data, done + w + rest, EncodeFileHeader(END_MARKER));
          return;
        }
        i := i + 1;
      }
      assert es[..i] == es;
      ghost var all := WalkTop(es, ignoreSymlinks);
      ok := NotifyEnd();
      assert [] + all == all;
      PartlyNext([], out.data, all, EncodeFileHeader(END_MARKER));
    }

    /** notify_end_and_wait_for_result, up to the wait. */
    method NotifyEnd() returns (ok: bool)
      requires Valid()
      modifies this, out
      ensures Appends(EncodeFileHeader(END_MARKER), ok)
    {
      ok := WriteAllWithCrc(EncodeFileHeader(END_MARKER));
    }
  }

  /** wait_for_result: what the sender makes of the receiver's report. */
  datatype Verdict = Done | QuotaIgnored | ErrorReported(code: int) | ChecksumMismatch

  function WaitForResult(errorCode: int, receiverCrc: bv32, senderCrc: bv32, ignoreQuotaError: bool): (v: Verdict)
    ensures v == Done <==> errorCode == 0 && receiverCrc == senderCrc
    ensures v == QuotaIgnored <==> errorCode == 122 && ignoreQuotaError
    ensures v.ErrorReported? ==> v.code == errorCode != 0
  {
    if errorCode == EDQUOT && ignoreQuotaError then QuotaIgnored
    else if errorCode != 0 then ErrorReported(errorCode)
    else if receiverCrc != senderCrc then ChecksumMismatch
    else Done
  }
}
