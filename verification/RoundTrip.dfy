/** What the sender walks is what the receiver ends up with. */
module RoundTrip {
  import opened Bytes
  import opened Crc32
  import opened Utf8
  import opened Paths
  import opened Wire
  import opened FileSystem
  import opened Unpack
  import opened ReceiverRules
  import opened Pack

  // ----- Trees that can be sent -----

  predicate NameOk(n: Name) {
    IsNormal(n) && forall i :: 0 <= i < |n| ==> n[i] != SLASH && n[i] != 0
  }

  predicate PathOk(p: Path) {
    p != [] && forall j :: 0 <= j < |p| ==> NameOk(p[j])
  }

  /** The path as sent, with its NUL. */
  function Sent(p: Path): seq<byte>
    requires p != []
  {
    Join(p) + [0]
  }

  predicate StatOk(s: Stat) {
    s.atimeNsec <= MAX_NSEC && s.mtimeNsec <= MAX_NSEC
  }

  /** A path of proper names, not too long, of safe text unless that is waived. */
  ghost predicate PathAccepted(cfg: Config, p: Path) {
    && PathOk(p) && |Sent(p)| <= MAX_PATH_LENGTH - 1
    && (cfg.flags.unsafeCharacters || AllText(p))
  }

  /** A link at such a path, with a target that is not too long and, unless unsafe links are allowed, follows the
      rule. */
  ghost predicate LinkAccepted(cfg: Config, p: Path, target: seq<byte>) {
    && PathAccepted(cfg, p) && 0 < |target| <= MAX_PATH_LENGTH - 1
    && CString(target + [0])
    && (cfg.flags.unsafeSymlinks || (|p| >= 2 && TargetRule(cfg.flags, target + [0], |p| - 2)))
  }

  /** Names and link targets that the receiver accepts, at every level. */
  ghost predicate Sendable(cfg: Config, p: Path, item: Item, ignoreSymlinks: bool)
    decreases item, 1
  {
    match item
    case FileItem(stat, data) => PathAccepted(cfg, p) && StatOk(stat) && IsReg(stat.mode) && |data| <= LLONG_MAX
    case LinkItem(stat, target) =>
      ignoreSymlinks || (LinkAccepted(cfg, p, target) && IsLnk(stat.mode) && cfg.flags.symlinks)
    case DirItem(stat, children) =>
      && PathAccepted(cfg, p) && StatOk(stat) && IsDir(stat.mode) && cfg.flags.directories
      && SendableAll(cfg, p, children, ignoreSymlinks)
  }

  ghost predicate SendableAll(cfg: Config, p: Path, es: seq<Entry>, ignoreSymlinks: bool)
    decreases es, 0
  {
    es == [] ||
    (&& Sendable(cfg, p + [es[0].name], es[0].item, ignoreSymlinks)
     && (forall j :: 1 <= j < |es| ==> es[j].name != es[0].name)
     && SendableAll(cfg, p, es[1..], ignoreSymlinks))
  }

  /** Records sent; a directory counts twice. */
  function Records(item: Item, ignoreSymlinks: bool): nat
    decreases item, 1
  {
    match item
    case FileItem(_, _) => 1
    case LinkItem(_, _) => if ignoreSymlinks then 0 else 1
    case DirItem(_, children) => 2 + RecordsAll(children, ignoreSymlinks)
  }

  function RecordsAll(es: seq<Entry>, ignoreSymlinks: bool): nat
    decreases es, 0
  {
    if es == [] then 0 else Records(es[0].item, ignoreSymlinks) + RecordsAll(es[1..], ignoreSymlinks)
  }

  /** Bytes counted against the limit, with at most perDir for the size of a directory. */
  function Cost(item: Item, ignoreSymlinks: bool, perDir: nat): nat
    decreases item, 1
  {
    match item
    case FileItem(_, data) => |data|
    case LinkItem(_, target) => if ignoreSymlinks then 0 else |target|
    case DirItem(_, children) => perDir + CostAll(children, ignoreSymlinks, perDir)
  }

  function CostAll(es: seq<Entry>, ignoreSymlinks: bool, perDir: nat): nat
    decreases es, 0
  {
    if es == [] then 0 else Cost(es[0].item, ignoreSymlinks, perDir) + CostAll(es[1..], ignoreSymlinks, perDir)
  }

  // ----- The tree that should result -----

  function SentTimes(s: Stat): Times {
    Times(U32(s.atime), s.atimeNsec, U32(s.mtime), s.mtimeNsec)
  }

  /** The nodes an item becomes below p: final modes and times, contents, link targets. */
  function Image(p: Path, item: Item, ignoreSymlinks: bool): Tree
    decreases item, 1
  {
    match item
    case FileItem(stat, data) => map[p := File(stat.mode % 4096, Some(SentTimes(stat)), data)]
    case LinkItem(_, target) => if ignoreSymlinks then map[] else map[p := Link(target)]
    case DirItem(stat, children) =>
      ImageAll(p, children, ignoreSymlinks)[p := Dir(stat.mode % 4096, Some(SentTimes(stat)))]
  }

  function ImageAll(p: Path, es: seq<Entry>, ignoreSymlinks: bool): Tree
    decreases es, 0
  {
    if es == [] then map[]
    else Image(p + [es[0].name], es[0].item, ignoreSymlinks) + ImageAll(p, es[1..], ignoreSymlinks)
  }

  // ----- Paths as strings -----

  /** The components of a sent path are the path. */
  lemma {:induction false} SplitJoin(p: Path)
    requires PathOk(p)
    ensures Paths.Split(Join(p)) == p
  {
    assert NameOk(p[0]);
    if |p| == 1 {
      SplitSingle(p[0]);
    } else {
      SplitJoin(p[1..]);
      SplitAtSlash(p[0], Join(p[1..]));
    }
  }

  lemma {:induction false} SentIsCString(p: Path)
    requires PathOk(p)
    ensures CString(Sent(p))
  {
    if |p| > 1 {
      SentIsCString(p[1..]);
      assert Sent(p) == p[0] + [SLASH] + Sent(p[1..]);
    }
  }

  lemma JoinNotEmpty(p: Path)
    requires PathOk(p)
    ensures Join(p) != []
  {
  }

  /** The receiver's validator accepts such a path, and such a link. */
  lemma PathPasses(cfg: Config, p: Path)
    requires PathAccepted(cfg, p)
    ensures CString(Sent(p)) && NameRule(cfg.flags, Sent(p))
    ensures ValidateFileName(Sent(p), NameFlags(cfg.flags)) == 0
  {
    hide SafeText, Paths.Split, Join, ValidateFileName;
    SentIsCString(p);
    SplitJoin(p);
    assert Content(Sent(p)) == Join(p);
    JoinNotEmpty(p);
    if !cfg.flags.unsafeCharacters {
      JoinIsText(p);
    }
    NameRuleExactly(cfg.flags, Sent(p));
  }

  lemma LinkPasses(cfg: Config, p: Path, target: seq<byte>)
    requires LinkAccepted(cfg, p, target)
    ensures CString(Sent(p)) && ValidateSymlink(Sent(p), target + [0], NameFlags(cfg.flags)) == 0
  {
    hide NameRule, Paths.Split, Join, ValidateSymlink, TargetRule, ValidateFileName, AllText, PathOk;
    PathPasses(cfg, p);
    PathNotEmpty(p);
    SplitJoin(p);
    assert Content(Sent(p)) == Join(p);
    LinkRuleExactly(cfg.flags, Sent(p), target + [0]);
  }

  lemma {:induction false} JoinChild(p: Path, n: Name)
    requires p != []
    ensures Join(p + [n]) == ChildPath(Join(p), n)
  {
    if |p| == 1 {
      assert (p + [n])[1..] == [n];
    } else {
      JoinChild(p[1..], n);
      assert (p + [n])[1..] == p[1..] + [n];
    }
  }

  lemma ComponentsOfSent(p: Path)
    requires PathOk(p) && CString(Sent(p))
    ensures Components(Sent(p)) == p
  {
    hide Paths.Split, Join;
    assert Content(Sent(p)) == Join(p);
    SplitJoin(p);
  }

  // ----- One record -----

  /** A record whose name is the C string `name`, followed by its payload and the rest of the stream. */
  lemma RunOneRecord(cfg: Config, st: State, h: FileHeader, name: seq<byte>, payload: seq<byte>, rest: seq<byte>)
    requires CString(name) && h.namelen == |name| <= MAX_PATH_LENGTH - 1
    requires BodyLength(h) == |name| + |payload|
    requires cfg.filesLimit == 0 || st.totalFiles + 1 <= cfg.filesLimit
    requires st.totalFiles + 1 < TWO64
    requires ReceiveKind(cfg, Named(st, h, name), h, name, payload + rest).Next?
    ensures Run(cfg, st, EncodeFileHeader(h) + name + payload + rest)
         == Run(cfg, ReceiveKind(cfg, Named(st, h, name), h, name, payload + rest).st, rest)
  {
    hide EncodeFileHeader, ParseFileHeader, ReceiveKind, Crc, Run;
    var s := EncodeFileHeader(h) + name + payload + rest;
    var more := name + (payload + rest);
    assert s == EncodeFileHeader(h) + more;
    ParseEncodeFileHeader(h, more);
    assert s[..HEADER_SIZE] == EncodeFileHeader(h) && s[HEADER_SIZE..] == more;
    assert more[..|name|] == name && more[|name|..] == payload + rest;
    NameReadBack(name);
    RunAtRecord(cfg, st, s);
    assert more[BodyLength(h)..] == rest;
  }

  /** A C string read into a buffer is itself. */
  lemma NameReadBack(name: seq<byte>)
    requires CString(name)
    ensures AsCString(name) == name
  {
    var p := name[..|name| - 1];
    assert name == p + [0];
    AsCStringOf(p, [0]);
  }

  /** The state once header and name have been read. */
  function Named(st: State, h: FileHeader, name: seq<byte>): State {
    var st' := Counted(AfterHeader(st, EncodeFileHeader(h)));
    st'.(crc := Crc(st'.crc, name))
  }

  lemma HeaderForPath(p: Path, stat: Stat, filelen: nat)
    requires PathOk(p) && |Sent(p)| <= MAX_PATH_LENGTH - 1
    ensures HeaderBytes(Join(p), stat, filelen) == EncodeFileHeader(HeaderFor(Join(p), stat, filelen)) + Sent(p)
    ensures HeaderFor(Join(p), stat, filelen).namelen == |Sent(p)|
  {
    hide EncodeFileHeader, Join;
    assert Sent(p)[..|Sent(p)|] == Sent(p);
  }

  // ----- The receiving directory -----

  /** Every directory above p exists with mode 0700, and nothing is at or below p. */
  ghost predicate Ready(fs: Tree, p: Path) {
    && p != []
    && (forall i :: 0 < i < |p| ==> p[..i] in fs && fs[p[..i]].Dir? && fs[p[..i]].mode == MODE_RWX)
    && (forall k :: k in fs ==> !(p <= k))
  }

  lemma {:induction false} OpensCleanly(fs: Tree, p: Path, n: nat)
    requires p != [] && n < |p|
    requires forall i :: 0 < i < |p| ==> p[..i] in fs && fs[p[..i]].Dir? && fs[p[..i]].mode == MODE_RWX
    ensures OpenPrefixErrno(fs, p, n) == 0
    decreases n
  {
    if n > 0 {
      OpensCleanly(fs, p, n - 1);
      assert p[..n - 1] + [p[n - 1]] == p[..n];
      if n > 1 {
        assert p[..n - 1] in fs;
      }
    }
  }

  lemma ReadyToCreate(fs: Tree, p: Path)
    requires Ready(fs, p)
    ensures OpenParentErrno(fs, p) == 0 && CreateErrno(fs, p) == 0
  {
    OpensCleanly(fs, p, |p| - 1);
    assert p <= p;
    if |p| > 1 {
      assert p[..|p| - 1] in fs;
    }
  }

  /** fs' is fs with the nodes of `image` added; only the times of `dir` may have changed otherwise. */
  ghost predicate Grown(fs: Tree, fs': Tree, dir: Path, image: Tree) {
    && fs'.Keys == fs.Keys + image.Keys
    && (forall k :: k in image ==> fs'[k] == image[k])
    && (forall k :: k in fs && k !in image && k != dir ==> fs'[k] == fs[k])
    && (dir in fs && dir !in image ==>
          fs'[dir] == fs[dir] || (fs[dir].Dir? && fs'[dir] == Dir(fs[dir].mode, None)))
  }

  lemma CreateGrows(fs: Tree, p: Path, node: Node)
    requires p != []
    ensures Grown(fs, Create(fs, p, node), Parent(p), map[p := node])
  {
    assert Parent(p) != p;
  }

  // ----- The walk, received -----

  /** The limits leave room for so many records and bytes. */
  predicate Affordable(cfg: Config, st: State, records: nat, cost: nat) {
    && (cfg.filesLimit == 0 || st.totalFiles + records <= cfg.filesLimit)
    && st.totalFiles + records < TWO64
    && (cfg.bytesLimit == 0 || st.totalBytes + cost <= cfg.bytesLimit)
  }

  /** st' has spent them. */
  predicate Spent(cfg: Config, st: State, st': State, records: nat, cost: nat) {
    && st'.totalFiles == st.totalFiles + records
    && (cfg.bytesLimit == 0 || st'.totalBytes <= st.totalBytes + cost)
  }

  ghost predicate DirsBounded(cfg: Config, perDir: nat) {
    forall fs, p :: cfg.dirSize(fs, p) <= perDir
  }

  /** Receiving `sent`, from st, leads to st' with the rest of the stream still to come. */
  ghost predicate Receives(cfg: Config, st: State, sent: seq<byte>, st': State) {
    && (forall rest :: Run(cfg, st, sent + rest) == Run(cfg, st', rest))
    && st'.crc == Crc(st.crc, sent)
  }

  lemma ReceivesNothing(cfg: Config, st: State)
    ensures Receives(cfg, st, [], st)
  {
    hide Run, Crc;
    CrcNothing(st.crc);
    assert forall rest: seq<byte> :: [] + rest == rest;
  }

  lemma ReceivesConcat(cfg: Config, st: State, a: seq<byte>, st1: State, b: seq<byte>, st2: State)
    requires Receives(cfg, st, a, st1) && Receives(cfg, st1, b, st2)
    ensures Receives(cfg, st, a + b, st2)
  {
    hide Run, Crc;
    CrcConcat(st.crc, a, b);
    forall rest ensures Run(cfg, st, a + b + rest) == Run(cfg, st2, rest) {
      Assoc(a, b, rest);
      assert Run(cfg, st, a + (b + rest)) == Run(cfg, st1, b + rest);
    }
  }

  /** One record that the handler accepts without looking at what follows. */
  lemma ReceivesRecord(cfg: Config, st: State, h: FileHeader, name: seq<byte>, payload: seq<byte>, st': State)
    requires CString(name) && h.namelen == |name| <= MAX_PATH_LENGTH - 1
    requires BodyLength(h) == |name| + |payload|
    requires Affordable(cfg, st, 1, 0)
    requires forall rest :: ReceiveKind(cfg, Named(st, h, name), h, name, payload + rest) == Next(st')
    requires st'.crc == Crc(Named(st, h, name).crc, payload)
    ensures Receives(cfg, st, EncodeFileHeader(h) + name + payload, st')
  {
    hide Run, Crc, ReceiveKind, EncodeFileHeader;
    CrcConcat(st.crc, EncodeFileHeader(h), name);
    CrcConcat(st.crc, EncodeFileHeader(h) + name, payload);
    forall rest ensures Run(cfg, st, EncodeFileHeader(h) + name + payload + rest) == Run(cfg, st', rest) {
      assert ReceiveKind(cfg, Named(st, h, name), h, name, payload + rest) == Next(st');
      RunOneRecord(cfg, st, h, name, payload, rest);
    }
  }

  lemma FileReceived(cfg: Config, st: State, p: Path, stat: Stat, data: seq<byte>) returns (st': State)
    requires PathAccepted(cfg, p) && StatOk(stat) && IsReg(stat.mode) && |data| <= LLONG_MAX
    requires Ready(st.fs, p) && Affordable(cfg, st, 1, |data|)
    ensures Receives(cfg, st, HeaderBytes(Join(p), stat, |data|) + data, st')
    ensures Spent(cfg, st, st', 1, |data|)
    ensures Grown(st.fs, st'.fs, Parent(p), map[p := File(stat.mode % 4096, Some(SentTimes(stat)), data)])
  {
    hide Run, Crc, EncodeFileHeader, Ready, Join, ValidateFileName, Grown, OpenParentErrno, CreateErrno, HeaderBytes,
         CString, PathOk, Receives, NameRule, AllText;
    PathPasses(cfg, p);
    PathNotEmpty(p);
    var h, name := HeaderFor(Join(p), stat, |data|), Sent(p);
    HeaderForPath(p, stat, |data|);
    ComponentsOfSent(p);
    ReadyToCreate(st.fs, p);
    var n := Named(st, h, name);
    var node := File(stat.mode % 4096, Some(SentTimes(stat)), data);
    st' := n.(fs := Create(st.fs, p, node), totalBytes := U64(n.totalBytes + |data|), crc := Crc(n.crc, data),
              written := n.written + |data|);
    CreateGrows(st.fs, p, node);
    forall rest ensures ReceiveKind(cfg, n, h, name, data + rest) == Next(st') {
      assert (data + rest)[..|data|] == data;
    }
    ReceivesRecord(cfg, st, h, name, data, st');
  }

  lemma LinkReceived(cfg: Config, st: State, p: Path, stat: Stat, target: seq<byte>) returns (st': State)
    requires LinkAccepted(cfg, p, target) && IsLnk(stat.mode) && cfg.flags.symlinks
    requires Ready(st.fs, p) && Affordable(cfg, st, 1, |target|)
    ensures Receives(cfg, st, HeaderBytes(Join(p), stat, |target|) + target, st')
    ensures Spent(cfg, st, st', 1, |target|)
    ensures Grown(st.fs, st'.fs, Parent(p), map[p := Link(target)])
  {
    hide Run, Crc, EncodeFileHeader, Ready, Join, ValidateFileName, ValidateSymlink, Grown, OpenParentErrno,
         CreateErrno, HeaderBytes, CString, PathOk, Receives, AsCString, NameRule, AllText, TargetRule;
    LinkPasses(cfg, p, target);
    PathPasses(cfg, p);
    PathNotEmpty(p);
    var h, name := HeaderFor(Join(p), stat, |target|), Sent(p);
    HeaderForPath(p, stat, |target|);
    ComponentsOfSent(p);
    ReadyToCreate(st.fs, p);
    TargetReadBack(target);
    assert Content(target + [0]) == target;
    var n := Named(st, h, name);
    st' := n.(fs := Create(st.fs, p, Link(target)), totalBytes := U64(n.totalBytes + |target|),
              crc := Crc(n.crc, target), written := n.written + |target|);
    CreateGrows(st.fs, p, Link(target));
    forall rest ensures ReceiveKind(cfg, n, h, name, target + rest) == Next(st') {
      assert (target + rest)[..|target|] == target;
    }
    ReceivesRecord(cfg, st, h, name, target, st');
  }

  lemma TargetReadBack(target: seq<byte>)
    requires CString(target + [0])
    ensures AsCString(target) == target + [0]
  {
    assert forall i :: 0 <= i < |target| ==> target[i] == (target + [0])[i];
    assert target + [] == target;
    AsCStringOf(target, []);
  }

  /** The first visit to a directory makes it with mode 0700. */
  lemma DirOpened(cfg: Config, st: State, p: Path, stat: Stat) returns (st': State)
    requires PathAccepted(cfg, p) && IsDir(stat.mode) && cfg.flags.directories
    requires Ready(st.fs, p) && Affordable(cfg, st, 1, 0)
    ensures Receives(cfg, st, HeaderBytes(Join(p), stat, 0), st')
    ensures Spent(cfg, st, st', 1, 0)
    ensures st'.fs == Create(st.fs, p, Dir(0x1C0, None))
  {
    hide Run, Crc, EncodeFileHeader, Ready, Join, ValidateFileName, OpenParentErrno, CreateErrno, HeaderBytes,
         CString, PathOk, Receives, Create, NameRule, AllText;
    PathPasses(cfg, p);
    PathNotEmpty(p);
    var h, name := HeaderFor(Join(p), stat, 0), Sent(p);
    HeaderForPath(p, stat, 0);
    ComponentsOfSent(p);
    ReadyToCreate(st.fs, p);
    var n := Named(st, h, name);
    st' := n.(fs := Create(st.fs, p, Dir(MODE_RWX, None)));
    CrcNothing(n.crc);
    ReceivesRecord(cfg, st, h, name, [], st');
    assert EncodeFileHeader(h) + name + [] == EncodeFileHeader(h) + name;
  }

  /** The second visit, when everything below exists, gives it its final mode and times. */
  lemma DirClosed(cfg: Config, st: State, p: Path, stat: Stat, perDir: nat) returns (st': State)
    requires PathAccepted(cfg, p) && StatOk(stat) && IsDir(stat.mode) && cfg.flags.directories
    requires DirsBounded(cfg, perDir)
    requires forall i :: 0 < i <= |p| ==> p[..i] in st.fs && st.fs[p[..i]].Dir? && st.fs[p[..i]].mode == MODE_RWX
    requires Affordable(cfg, st, 1, perDir)
    ensures Receives(cfg, st, HeaderBytes(Join(p), stat, 0), st')
    ensures Spent(cfg, st, st', 1, perDir)
    ensures st'.fs == st.fs[p := Dir(stat.mode % 4096, Some(SentTimes(stat)))]
  {
    hide Run, Crc, EncodeFileHeader, Join, ValidateFileName, HeaderBytes, CString, PathOk, Receives, OpenPrefixErrno,
         NameRule, AllText;
    PathPasses(cfg, p);
    PathNotEmpty(p);
    var h, name := HeaderFor(Join(p), stat, 0), Sent(p);
    HeaderForPath(p, stat, 0);
    ComponentsOfSent(p);
    OpensCleanly(st.fs, p, |p| - 1);
    assert p[..|p|] == p && p in st.fs;
    assert |p| > 1 ==> p[..|p| - 1] in st.fs;
    var n := Named(st, h, name);
    var size := cfg.dirSize(st.fs, p);
    st' := n.(totalBytes := U64(n.totalBytes + size), dirBytes := n.dirBytes + size,
              fs := st.fs[p := Dir(stat.mode % 4096, Some(SentTimes(stat)))]);
    CrcNothing(n.crc);
    ReceivesRecord(cfg, st, h, name, [], st');
    assert EncodeFileHeader(h) + name + [] == EncodeFileHeader(h) + name;
  }

  lemma PathNotEmpty(p: Path)
    requires PathOk(p)
    ensures p != []
  {
  }

  /** Every node of an image lies at or below the path of its item. */
  lemma {:induction false} ImageBelow(p: Path, item: Item, ignoreSymlinks: bool, k: Path)
    requires k in Image(p, item, ignoreSymlinks)
    ensures p <= k
    decreases item, 1
  {
    if item.DirItem? && k != p {
      ImageAllBelow(p, item.children, ignoreSymlinks, k);
    }
  }

  lemma {:induction false} ImageAllBelow(p: Path, es: seq<Entry>, ignoreSymlinks: bool, k: Path)
    requires k in ImageAll(p, es, ignoreSymlinks)
    ensures p < k && exists j :: 0 <= j < |es| && p + [es[j].name] <= k
    decreases es, 0
  {
    if k in Image(p + [es[0].name], es[0].item, ignoreSymlinks) {
      ImageBelow(p + [es[0].name], es[0].item, ignoreSymlinks, k);
      assert p + [es[0].name] <= k;
    } else {
      ImageAllBelow(p, es[1..], ignoreSymlinks, k);
      var j :| 0 <= j < |es[1..]| && p + [es[1..][j].name] <= k;
      assert es[1..][j] == es[j + 1];
    }
  }

  /** p itself is a directory with mode 0700, and so are those above it. */
  ghost predicate OpenAt(fs: Tree, p: Path) {
    forall i :: 0 < i <= |p| ==> p[..i] in fs && fs[p[..i]].Dir? && fs[p[..i]].mode == MODE_RWX
  }

  /** None of the entries is there yet. */
  ghost predicate Vacant(fs: Tree, p: Path, es: seq<Entry>) {
    forall j, k :: 0 <= j < |es| && k in fs ==> !(p + [es[j].name] <= k)
  }

  lemma ChildIsReady(fs: Tree, p: Path, es: seq<Entry>)
    requires OpenAt(fs, p) && es != [] && Vacant(fs, p, es)
    ensures Ready(fs, p + [es[0].name])
  {
    var q := p + [es[0].name];
    forall i | 0 < i < |q| ensures q[..i] in fs && fs[q[..i]].Dir? && fs[q[..i]].mode == MODE_RWX {
      assert q[..i] == p[..i];
    }
  }

  /** After one entry, the directory is still open and the other entries are still absent. */
  lemma SiblingsStayVacant(fs: Tree, fs': Tree, p: Path, es: seq<Entry>, image: Tree)
    requires OpenAt(fs, p) && es != [] && Vacant(fs, p, es) && Grown(fs, fs', p, image)
    requires forall j :: 1 <= j < |es| ==> es[j].name != es[0].name
    requires forall k :: k in image ==> p + [es[0].name] <= k
    ensures OpenAt(fs', p) && Vacant(fs', p, es[1..])
  {
    forall i | 0 < i <= |p| ensures p[..i] in fs' && fs'[p[..i]].Dir? && fs'[p[..i]].mode == MODE_RWX {
      assert p[..i] in fs && p[..i] !in image;
    }
    forall j, k | 0 <= j < |es[1..]| && k in fs' ensures !(p + [es[1..][j].name] <= k) {
      assert es[1..][j] == es[j + 1];
      assert k in image ==> k[|p|] == (p + [es[0].name])[|p|] != (p + [es[j + 1].name])[|p|];
    }
  }

  lemma GrownTwice(fs: Tree, fs1: Tree, fs2: Tree, dir: Path, a: Tree, b: Tree)
    requires Grown(fs, fs1, dir, a) && Grown(fs1, fs2, dir, b)
    requires a.Keys !! b.Keys && dir !in a && dir !in b
    ensures Grown(fs, fs2, dir, a + b)
  {
  }

  lemma ImagesDisjoint(p: Path, es: seq<Entry>, ignoreSymlinks: bool)
    requires es != [] && forall j :: 1 <= j < |es| ==> es[j].name != es[0].name
    ensures var a, b := Image(p + [es[0].name], es[0].item, ignoreSymlinks), ImageAll(p, es[1..], ignoreSymlinks);
            && a.Keys !! b.Keys && p !in a && p !in b
            && forall k :: k in a ==> p + [es[0].name] <= k
  {
    var q := p + [es[0].name];
    var a, b := Image(q, es[0].item, ignoreSymlinks), ImageAll(p, es[1..], ignoreSymlinks);
    forall k | k in a ensures q <= k && k != p {
      ImageBelow(q, es[0].item, ignoreSymlinks, k);
    }
    forall k | k in b ensures k !in a && k != p {
      ImageAllBelow(p, es[1..], ignoreSymlinks, k);
      var j :| 0 <= j < |es[1..]| && p + [es[1..][j].name] <= k;
      assert es[1..][j] == es[j + 1];
      assert k[|p|] == (p + [es[j + 1].name])[|p|] == es[j + 1].name != es[0].name == q[|p|];
    }
  }

  /** Receiving the walk of one item adds its image, and nothing else. */
  lemma {:induction false} WalkReceived(cfg: Config, st: State, p: Path, item: Item, ignoreSymlinks: bool, perDir: nat)
    returns (st': State)
    requires p != [] && Sendable(cfg, p, item, ignoreSymlinks) && Ready(st.fs, p) && DirsBounded(cfg, perDir)
    requires Affordable(cfg, st, Records(item, ignoreSymlinks), Cost(item, ignoreSymlinks, perDir))
    ensures Receives(cfg, st, Walk(Join(p), item, ignoreSymlinks), st')
    ensures Spent(cfg, st, st', Records(item, ignoreSymlinks), Cost(item, ignoreSymlinks, perDir))
    ensures Grown(st.fs, st'.fs, Parent(p), Image(p, item, ignoreSymlinks))
    decreases item, 1
  {
    hide Receives, HeaderBytes, Join, PathAccepted, LinkAccepted, DirsBounded, Ready, Grown, Create;
    match item
    case FileItem(stat, data) =>
      st' := FileReceived(cfg, st, p, stat, data);
    case LinkItem(stat, target) =>
      if ignoreSymlinks {
        st' := st;
        ReceivesNothing(cfg, st);
        GrownByNothing(st.fs, Parent(p));
      } else {
        st' := LinkReceived(cfg, st, p, stat, target);
      }
    case DirItem(stat, children) =>
      var st1 := DirOpened(cfg, st, p, stat);
      NewDirIsOpen(st.fs, p, children);
      var st2 := WalkAllReceived(cfg, st1, p, children, ignoreSymlinks, perDir);
      OpenAfter(st1.fs, st2.fs, p, children, ignoreSymlinks);
      st' := DirClosed(cfg, st2, p, stat, perDir);
      var head, body := HeaderBytes(Join(p), stat, 0), WalkAll(Join(p), children, ignoreSymlinks);
      ReceivesConcat(cfg, st, head, st1, body, st2);
      ReceivesConcat(cfg, st, head + body, st2, head, st');
      assert p !in st.fs by {
        ReadyIsVacant(st.fs, p);
      }
      DirImage(st.fs, st1.fs, st2.fs, p, stat, children, ignoreSymlinks);
  }

  lemma ReadyIsVacant(fs: Tree, p: Path)
    requires Ready(fs, p)
    ensures p !in fs
  {
    assert p <= p;
  }

  lemma GrownByNothing(fs: Tree, dir: Path)
    ensures Grown(fs, fs, dir, map[])
  {
  }

  lemma NewDirIsOpen(fs: Tree, p: Path, es: seq<Entry>)
    requires Ready(fs, p)
    ensures var fs' := Create(fs, p, Dir(MODE_RWX, None)); OpenAt(fs', p) && Vacant(fs', p, es)
  {
    var fs' := Create(fs, p, Dir(MODE_RWX, None));
    forall i | 0 < i <= |p| ensures p[..i] in fs' && fs'[p[..i]].Dir? && fs'[p[..i]].mode == MODE_RWX {
      if i < |p| {
        assert p[..i] in fs && p[..i] != p;
      } else {
        assert p[..i] == p;
      }
    }
    forall j, k | 0 <= j < |es| && k in fs' ensures !(p + [es[j].name] <= k) {
      assert k in fs ==> !(p <= k);
      assert p + [es[j].name] <= k ==> p <= k;
    }
  }

  lemma OpenAfter(fs: Tree, fs': Tree, p: Path, es: seq<Entry>, ignoreSymlinks: bool)
    requires OpenAt(fs, p) && Grown(fs, fs', p, ImageAll(p, es, ignoreSymlinks))
    ensures OpenAt(fs', p)
  {
    var image := ImageAll(p, es, ignoreSymlinks);
    forall i | 0 < i <= |p| ensures p[..i] in fs' && fs'[p[..i]].Dir? && fs'[p[..i]].mode == MODE_RWX {
      if p[..i] in image {
        ImageAllBelow(p, es, ignoreSymlinks, p[..i]);
      }
    }
  }

  /** Create, fill and close: together they add the image of the directory. */
  lemma DirImage(fs: Tree, fs1: Tree, fs2: Tree, p: Path, stat: Stat, es: seq<Entry>, ignoreSymlinks: bool)
    requires p != [] && fs1 == Create(fs, p, Dir(MODE_RWX, None)) && p !in fs
    requires Grown(fs1, fs2, p, ImageAll(p, es, ignoreSymlinks))
    ensures Grown(fs, fs2[p := Dir(stat.mode % 4096, Some(SentTimes(stat)))], Parent(p),
                  Image(p, DirItem(stat, es), ignoreSymlinks))
  {
    hide ImageAll;
    var image, dir := ImageAll(p, es, ignoreSymlinks), Parent(p);
    if dir in image {
      ImageAllBelow(p, es, ignoreSymlinks, dir);
    }
    assert dir != p;
    var fs3 := fs2[p := Dir(stat.mode % 4096, Some(SentTimes(stat)))];
    assert fs3.Keys == fs.Keys + (image.Keys + {p});
  }

  lemma {:induction false} WalkAllReceived(cfg: Config, st: State, p: Path, es: seq<Entry>, ignoreSymlinks: bool,
                                           perDir: nat)
    returns (st': State)
    requires p != [] && SendableAll(cfg, p, es, ignoreSymlinks) && DirsBounded(cfg, perDir)
    requires OpenAt(st.fs, p) && Vacant(st.fs, p, es)
    requires Affordable(cfg, st, RecordsAll(es, ignoreSymlinks), CostAll(es, ignoreSymlinks, perDir))
    ensures Receives(cfg, st, WalkAll(Join(p), es, ignoreSymlinks), st')
    ensures Spent(cfg, st, st', RecordsAll(es, ignoreSymlinks), CostAll(es, ignoreSymlinks, perDir))
    ensures Grown(st.fs, st'.fs, p, ImageAll(p, es, ignoreSymlinks))
    decreases es, 0
  {
    hide Receives, Join, DirsBounded, Vacant, Sendable, Walk, Records, Cost, Image, Grown, OpenAt;
    if es == [] {
      st' := st;
      ReceivesNothing(cfg, st);
      GrownByNothing(st.fs, p);
    } else {
      var q := p + [es[0].name];
      ChildIsReady(st.fs, p, es);
      var st1 := WalkReceived(cfg, st, q, es[0].item, ignoreSymlinks, perDir);
      assert Parent(q) == p;
      JoinChild(p, es[0].name);
      ImagesDisjoint(p, es, ignoreSymlinks);
      SiblingsStayVacant(st.fs, st1.fs, p, es, Image(q, es[0].item, ignoreSymlinks));
      st' := WalkAllReceived(cfg, st1, p, es[1..], ignoreSymlinks, perDir);
      ReceivesConcat(cfg, st, Walk(Join(q), es[0].item, ignoreSymlinks), st1,
                     WalkAll(Join(p), es[1..], ignoreSymlinks), st');
      GrownTwice(st.fs, st1.fs, st'.fs, p, Image(q, es[0].item, ignoreSymlinks), ImageAll(p, es[1..], ignoreSymlinks));
    }
  }

  /** The top-level entries, one walk after the other. */
  lemma {:induction false} WalkTopReceived(cfg: Config, st: State, es: seq<Entry>, ignoreSymlinks: bool, perDir: nat)
    returns (st': State)
    requires SendableAll(cfg, [], es, ignoreSymlinks) && Vacant(st.fs, [], es) && DirsBounded(cfg, perDir)
    requires Affordable(cfg, st, RecordsAll(es, ignoreSymlinks), CostAll(es, ignoreSymlinks, perDir))
    ensures Receives(cfg, st, WalkTop(es, ignoreSymlinks), st')
    ensures Spent(cfg, st, st', RecordsAll(es, ignoreSymlinks), CostAll(es, ignoreSymlinks, perDir))
    ensures Grown(st.fs, st'.fs, [], ImageAll([], es, ignoreSymlinks))
    decreases es, 0
  {
    hide Receives, DirsBounded, Vacant, Sendable, Walk, Records, Cost, Image, Grown;
    if es == [] {
      st' := st;
      ReceivesNothing(cfg, st);
      GrownByNothing(st.fs, []);
    } else {
      var q := [es[0].name];
      assert [] + q == q;
      ChildIsReady(st.fs, [], es);
      var st1 := WalkReceived(cfg, st, q, es[0].item, ignoreSymlinks, perDir);
      ImagesDisjoint([], es, ignoreSymlinks);
      SiblingsStayVacant(st.fs, st1.fs, [], es, Image(q, es[0].item, ignoreSymlinks));
      st' := WalkTopReceived(cfg, st1, es[1..], ignoreSymlinks, perDir);
      ReceivesConcat(cfg, st, Walk(Join(q), es[0].item, ignoreSymlinks), st1, WalkTop(es[1..], ignoreSymlinks), st');
      GrownTwice(st.fs, st1.fs, st'.fs, [], Image(q, es[0].item, ignoreSymlinks),
                 ImageAll([], es[1..], ignoreSymlinks));
    }
  }

  /** The round trip: a tree with acceptable names and link targets, within the limits, arrives as it was sent; the
      receiver reports success, has read the whole stream, and its checksum is the sender's. */
  lemma TreeArrives(cfg: Config, es: seq<Entry>, ignoreSymlinks: bool, perDir: nat)
    requires SendableAll(cfg, [], es, ignoreSymlinks) && DirsBounded(cfg, perDir) && cfg.syncErrno == 0
    requires Affordable(cfg, START, RecordsAll(es, ignoreSymlinks), CostAll(es, ignoreSymlinks, perDir))
    ensures var e := UnpackStream(cfg, Stream(es, ignoreSymlinks));
            && e.st.fs == ImageAll([], es, ignoreSymlinks)
            && Succeeds(e) && e.rest == []
            && forall ignoreQuota ::
                 WaitForResult(e.code, e.st.crc, Crc(0, Stream(es, ignoreSymlinks)), ignoreQuota) == Done
  {
    hide Run, Crc, SendableAll, Affordable, Spent, WalkTop, EncodeFileHeader, DirsBounded;
    var st := WalkTopReceived(cfg, START, es, ignoreSymlinks, perDir);
    var sent, marker := WalkTop(es, ignoreSymlinks), EncodeFileHeader(END_MARKER);
    assert Run(cfg, START, sent + marker) == Run(cfg, st, marker);
    assert marker + [] == marker && marker[..HEADER_SIZE] == marker;
    ParseEncodeFileHeader(END_MARKER, []);
    RunAtMarker(cfg, st, marker);
    CrcConcat(0, sent, marker);
    assert st.fs == ImageAll([], es, ignoreSymlinks);
  }
}
