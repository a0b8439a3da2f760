/** The directory a transfer is unpacked into, as far as the receiver's system calls see it. */
module FileSystem {
  import opened Bytes
  import opened Wire

  type Name = seq<byte>
  /** Components below the incoming directory, which is []. */
  type Path = seq<Name>

  datatype Option<T> = None | Some(value: T)

  datatype Times = Times(atime: nat, atimeNsec: nat, mtime: nat, mtimeNsec: nat)

  /** Times are None when they are whatever the kernel last set them to. */
  datatype Node =
    | File(mode: nat, times: Option<Times>, data: seq<byte>)
    | Dir(mode: nat, times: Option<Times>)
    | Link(target: seq<byte>)

  type Tree = map<Path, Node>

  /** Owner permission bits 0400, 0200 and 0100. */
  predicate Readable(mode: int) {
    mode / 256 % 2 == 1
  }

  predicate Writable(mode: int) {
    mode / 128 % 2 == 1
  }

  predicate Searchable(mode: int) {
    mode / 64 % 2 == 1
  }

  const MODE_RWX := 0x1C0 // 0700

  function Parent(p: Path): Path
    requires p != []
  {
    p[..|p| - 1]
  }

  predicate CanSearch(fs: Tree, dir: Path) {
    dir == [] || (dir in fs && fs[dir].Dir? && Searchable(fs[dir].mode))
  }

  predicate CanWrite(fs: Tree, dir: Path) {
    dir == [] || (dir in fs && fs[dir].Dir? && Writable(fs[dir].mode))
  }

  /** openat with O_RDONLY | O_DIRECTORY | O_NOFOLLOW: 0, or the errno. */
  function OpenDirErrno(fs: Tree, dir: Path, name: Name): int {
    var p := dir + [name];
    if !CanSearch(fs, dir) then EACCES
    else if p !in fs then ENOENT
    else if !fs[p].Dir? then ENOTDIR
    else if !Readable(fs[p].mode) then EACCES
    else 0
  }

  /** Opening the first k components one after the other: 0, or the errno of the first failure. */
  function OpenPrefixErrno(fs: Tree, p: Path, k: nat): int
    requires k <= |p|
  {
    if k == 0 then 0
    else
      var e := OpenPrefixErrno(fs, p, k - 1);
      if e != 0 then e else OpenDirErrno(fs, p[..k - 1], p[k - 1])
  }

  /** Creating a new entry at p (O_CREAT | O_EXCL, mkdirat, symlinkat): 0, or the errno. */
  function CreateErrno(fs: Tree, p: Path): int
    requires p != []
  {
    if !CanSearch(fs, Parent(p)) then EACCES
    else if p in fs then EEXIST
    else if !CanWrite(fs, Parent(p)) then EACCES
    else 0
  }

  /** A new entry in a directory changes the directory's own times. */
  function Touch(fs: Tree, dir: Path): Tree {
    if dir in fs && fs[dir].Dir? then fs[dir := Dir(fs[dir].mode, None)] else fs
  }

  function Create(fs: Tree, p: Path, node: Node): Tree
    requires p != []
  {
    Touch(fs, Parent(p))[p := node]
  }
}
