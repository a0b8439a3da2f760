/** More about whole transfers: which times survive, and what an interrupted sender can do. */
module Transfer {
  import opened Bytes
  import opened Display
  import opened FileSystem
  import opened Unpack
  import opened ReceiverRules
  import opened Pack
  import opened RoundTrip
  import opened Crc32
  import opened CrcProperties
  import opened Wire

  // ----- Times -----

  /** The node carries the times of stat. */
  predicate TimesKept(node: Node, stat: Stat) {
    && !node.Link? && node.times.Some?
    && node.times.value.atime == stat.atime && node.times.value.mtime == stat.mtime
    && node.times.value.atimeNsec == stat.atimeNsec && node.times.value.mtimeNsec == stat.mtimeNsec
  }

  /** Every file and directory of the item has arrived with the times it was sent with. */
  predicate Carries(fs: Tree, p: Path, item: Item)
    decreases item, 1
  {
    match item
    case FileItem(stat, _) => p in fs && TimesKept(fs[p], stat)
    case LinkItem(_, _) => true
    case DirItem(stat, children) => p in fs && TimesKept(fs[p], stat) && CarriesAll(fs, p, children)
  }

  predicate CarriesAll(fs: Tree, p: Path, es: seq<Entry>)
    decreases es, 0
  {
    es == [] || (Carries(fs, p + [es[0].name], es[0].item) && CarriesAll(fs, p, es[1..]))
  }

  predicate SecondsFit(stat: Stat) {
    0 <= stat.atime < TWO32 && 0 <= stat.mtime < TWO32
  }

  /** The seconds of every file and directory of the item fit in 32 bits. */
  predicate AllSecondsFit(item: Item)
    decreases item, 1
  {
    match item
    case FileItem(stat, _) => SecondsFit(stat)
    case LinkItem(_, _) => true
    case DirItem(stat, children) => SecondsFit(stat) && AllSecondsFitIn(children)
  }

  predicate AllSecondsFitIn(es: seq<Entry>)
    decreases es, 0
  {
    es == [] || (AllSecondsFit(es[0].item) && AllSecondsFitIn(es[1..]))
  }

  ghost predicate Contains(fs: Tree, image: Tree) {
    forall k :: k in image ==> k in fs && fs[k] == image[k]
  }

  lemma SentTimesKept(stat: Stat, node: Node)
    requires !node.Link? && node.times == Some(SentTimes(stat))
    ensures TimesKept(node, stat) <==> SecondsFit(stat)
  {
  }

  lemma {:induction false} CarriesExactly(cfg: Config, fs: Tree, p: Path, item: Item, ignoreSymlinks: bool)
    requires Sendable(cfg, p, item, ignoreSymlinks) && Contains(fs, Image(p, item, ignoreSymlinks))
    ensures Carries(fs, p, item) <==> AllSecondsFit(item)
    decreases item, 1
  {
    hide TimesKept, SecondsFit, PathAccepted, LinkAccepted;
    match item
    case FileItem(stat, data) =>
      assert p in Image(p, item, ignoreSymlinks);
      SentTimesKept(stat, fs[p]);
    case LinkItem(_, _) =>
    case DirItem(stat, children) =>
      var inner := ImageAll(p, children, ignoreSymlinks);
      assert p in Image(p, item, ignoreSymlinks);
      SentTimesKept(stat, fs[p]);
      forall k | k in inner ensures k in fs && fs[k] == inner[k] {
        ImageAllBelow(p, children, ignoreSymlinks, k);
        assert k in Image(p, item, ignoreSymlinks);
      }
      CarriesAllExactly(cfg, fs, p, children, ignoreSymlinks);
  }

  lemma {:induction false} CarriesAllExactly(cfg: Config, fs: Tree, p: Path, es: seq<Entry>, ignoreSymlinks: bool)
    requires SendableAll(cfg, p, es, ignoreSymlinks) && Contains(fs, ImageAll(p, es, ignoreSymlinks))
    ensures CarriesAll(fs, p, es) <==> AllSecondsFitIn(es)
    decreases es, 0
  {
    hide Sendable, Carries, AllSecondsFit, Image;
    if es != [] {
      ImagesDisjoint(p, es, ignoreSymlinks);
      var a, b := Image(p + [es[0].name], es[0].item, ignoreSymlinks), ImageAll(p, es[1..], ignoreSymlinks);
      forall k | k in a || k in b ensures k in fs && fs[k] == (if k in a then a[k] else b[k]) {
        assert k in ImageAll(p, es, ignoreSymlinks);
      }
      CarriesExactly(cfg, fs, p + [es[0].name], es[0].item, ignoreSymlinks);
      CarriesAllExactly(cfg, fs, p, es[1..], ignoreSymlinks);
    }
  }

  /** Every file and directory of a tree arrives with the times it was sent with, exactly when all the seconds lie in
      0 .. 2^32 - 1. */
  lemma TimesArriveExactly(cfg: Config, es: seq<Entry>, ignoreSymlinks: bool, perDir: nat)
    requires SendableAll(cfg, [], es, ignoreSymlinks) && DirsBounded(cfg, perDir) && cfg.syncErrno == 0
    requires Affordable(cfg, START, RecordsAll(es, ignoreSymlinks), CostAll(es, ignoreSymlinks, perDir))
    ensures CarriesAll(UnpackStream(cfg, Stream(es, ignoreSymlinks)).st.fs, [], es) <==> AllSecondsFitIn(es)
  {
    hide Run, Stream, SendableAll, RecordsAll, CostAll, ImageAll, CarriesAll, AllSecondsFitIn;
    TreeArrives(cfg, es, ignoreSymlinks, perDir);
    CarriesAllExactly(cfg, ImageAll([], es, ignoreSymlinks), [], es, ignoreSymlinks);
  }

  /** An empty file "a", last changed one second before 1970. */
  const OLD_FILE := Entry([0x61], FileItem(Stat(0x8180, 0, 0, -1, 0), []))

  lemma PlainText()
    ensures SafeText([0x61])
  {
    assert AllSafe([0x61]) && [0x61][1..] == [];
    assert EncodeAll([0x61]) == [0x61] + [];
  }

  lemma OldFileAccepted(cfg: Config)
    ensures PathAccepted(cfg, [[0x61]])
  {
    hide SafeText;
    PlainText();
    assert Sent([[0x61]]) == [0x61, 0];
  }

  lemma OldFileIsSendable(cfg: Config)
    ensures SendableAll(cfg, [], [OLD_FILE], false)
    ensures ImageAll([], [OLD_FILE], false) == map[[[0x61]] := File(0x180, Some(Times(0, 0, TWO32 - 1, 0)), [])]
  {
    hide PathAccepted;
    var p: Path := [[0x61]];
    OldFileAccepted(cfg);
    assert [] + [OLD_FILE.name] == p && [OLD_FILE][1..] == [];
    assert SendableAll(cfg, [], [OLD_FILE][1..], false);
    assert ImageAll([], [OLD_FILE][1..], false) == map[];
    assert Image(p, OLD_FILE.item, false) == map[p := File(0x180, Some(Times(0, 0, TWO32 - 1, 0)), [])];
    assert Image(p, OLD_FILE.item, false) + map[] == Image(p, OLD_FILE.item, false);
  }

  /** An instance: it arrives as changed in 2106. */
  lemma OldFileArrivesYoung(cfg: Config, perDir: nat)
    requires DirsBounded(cfg, perDir) && cfg.syncErrno == 0 && cfg.bytesLimit == 0 && cfg.filesLimit == 0
    ensures UnpackStream(cfg, Stream([OLD_FILE], false)).st.fs
         == map[[[0x61]] := File(0x180, Some(Times(0, 0, TWO32 - 1, 0)), [])]
  {
    hide Run, Stream, SendableAll, ImageAll;
    OldFileIsSendable(cfg);
    assert [OLD_FILE][1..] == [];
    assert RecordsAll([OLD_FILE], false) == 1 && CostAll([OLD_FILE], false, perDir) == 0;
    TreeArrives(cfg, [OLD_FILE], false, perDir);
  }

  // ----- A sender that is cut off -----

  /** Whatever a failing sender has got out of the stream of an acceptable tree, short of all of it, the receiver does
      not report success. */
  lemma PartialSendFails(cfg: Config, es: seq<Entry>, ignoreSymlinks: bool, perDir: nat, sent: seq<byte>)
    requires SendableAll(cfg, [], es, ignoreSymlinks) && DirsBounded(cfg, perDir) && cfg.syncErrno == 0
    requires Affordable(cfg, START, RecordsAll(es, ignoreSymlinks), CostAll(es, ignoreSymlinks, perDir))
    requires Partly([], sent, Stream(es, ignoreSymlinks))
    ensures Succeeds(UnpackStream(cfg, sent)) <==> sent == Stream(es, ignoreSymlinks)
  {
    hide Run, Stream, SendableAll, RecordsAll, CostAll, ImageAll;
    var s := Stream(es, ignoreSymlinks);
    TreeArrives(cfg, es, ignoreSymlinks, perDir);
    var n :| 0 <= n <= |s| && sent == [] + s[..n];
    assert sent == s[..n];
    SuccessReads(cfg, START, s);
    PrefixSucceedsIffMarkerRead(cfg, s, n);
  }

  // ----- A stream that is changed on the way -----

  /** The sender's verdict in wait_for_result accepts nothing but status 0 with its own checksum; so if one byte of the
      stream is changed on the way, the transfer is not taken for done, even by a receiver that reports success. */
  lemma ChangedByteIsRefused(cfg: Config, a: seq<byte>, x: byte, y: byte, b: seq<byte>)
    requires x != y
    ensures var sent, e := a + [x] + b, UnpackStream(cfg, a + [y] + b);
            Succeeds(e) && e.rest == [] ==> WaitForResult(e.code, e.st.crc, Crc(0, sent), false) == ChecksumMismatch
  {
    hide Run, Crc, MarkerEnd;
    var received := a + [y] + b;
    var e := UnpackStream(cfg, received);
    if Succeeds(e) && e.rest == [] {
      SuccessReads(cfg, START, received);
      ChecksumOfAllRead(cfg, START, received);
      assert received[..|received|] == received;
      if Crc(0, received) == Crc(0, a + [x] + b) {
        OneByteChangeDetected(0, a, x, y, b);
      }
    }
  }
}
