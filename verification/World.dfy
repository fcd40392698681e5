/** The file system with its open descriptors, and what each call of the interface does to it. */
module World {
  import opened Bytes
  import opened Geometry
  import opened Inodes
  import opened DirRecords
  import opened Fs
  import opened Invariant
  import opened DirUpdates
  import opened DirMaps
  import opened Files
  import opened FileTheory
  import opened Creation

  const FIRST_FD: nat := 3
  const O_CREAT: int := 0x40
  const FAILED: int := -1
  const SEEK_SET: int := 0
  const SEEK_CUR: int := 1
  const SEEK_END: int := 2

  /** An open file; a descriptor with inode 0 is closed. */
  datatype Fd = Fd(inode: nat, offset: nat, flag: int)

  datatype World = World(fs: Fs, files: seq<Fd>)

  const CLOSED: Fd := Fd(0, 0, 0)

  // ----- paths -----

  /** Every step of the walk, but for the last, is made in a directory. */
  ghost predicate Walkable(fs: Fs, ino: nat, path: seq<Name>)
    decreases |path|
  {
    && IsInode(fs, ino)
    && (path != [] ==>
          && LiveDir(fs, ino) && TreesOk(fs, GetInode(fs, ino)) && DirBlocksOk(fs, AllBlocks(fs, ino))
          && (Find(fs, ino, path[0]).Some? ==> Walkable(fs, Find(fs, ino, path[0]).value, path[1..])))
  }

  /** Looks up one component after the other. */
  function Walk(fs: Fs, ino: nat, path: seq<Name>): (found: Option<nat>)
    requires Walkable(fs, ino, path)
    ensures found.Some? ==> IsInode(fs, found.value)
    decreases |path|
  {
    if path == [] then Some(ino)
    else match Find(fs, ino, path[0])
      case None => None
      case Some(next) => Walk(fs, next, path[1..])
  }

  // ----- create and mkdir -----

  ghost predicate CanCreate(fs: Fs, path: seq<Name>, now: nat) {
    && path != []
    && (|path[|path| - 1]| <= NAME_LEN ==>
          && Walkable(fs, ROOT_INODE, path[..|path| - 1])
          && (Walk(fs, ROOT_INODE, path[..|path| - 1]).Some? ==>
                var dir := Walk(fs, ROOT_INODE, path[..|path| - 1]).value;
                LiveDir(fs, dir) && TreesOk(fs, GetInode(fs, dir)) && CanMakeFile(fs, dir, path[|path| - 1], now)))
  }

  function Create(fs: Fs, path: seq<Name>, now: nat): (int, Fs)
    requires CanCreate(fs, path, now)
  {
    var name := path[|path| - 1];
    if |name| > NAME_LEN then (FAILED, fs)
    else match Walk(fs, ROOT_INODE, path[..|path| - 1])
      case None => (FAILED, fs)
      case Some(dir) =>
        var (made, fs') := MakeFile(fs, dir, name, now);
        (if made then 0 else FAILED, fs')
  }

  ghost predicate CanMakeDirs(fs: Fs, ino: nat, path: seq<Name>, now: nat)
    decreases |path|
  {
    path != [] ==>
      && LiveDir(fs, ino) && TreesOk(fs, GetInode(fs, ino)) && CanMakeDir(fs, ino, path[0], now)
      && var (found, made, fs') := FindOrMake(fs, ino, path[0], now);
         made && found.Some? ==> CanMakeDirs(fs', found.value, path[1..], now)
  }

  /** Makes one directory inside the other, and fails at the first component that exists already. */
  function MakeDirs(fs: Fs, ino: nat, path: seq<Name>, now: nat): (int, Fs)
    requires CanMakeDirs(fs, ino, path, now)
    decreases |path|
  {
    if path == [] then (0, fs)
    else
      var (found, made, fs') := FindOrMake(fs, ino, path[0], now);
      if made && found.Some? then MakeDirs(fs', found.value, path[1..], now) else (FAILED, fs')
  }

  // ----- descriptors -----

  predicate IsOpen(files: seq<Fd>, fd: int) {
    0 <= fd < |files| && files[fd].inode != 0
  }

  predicate Writeable(flag: int) {
    flag % 4 == 1 || flag % 4 == 2
  }

  predicate CanBeRead(flag: int) {
    flag % 4 == 0 || flag % 4 == 2
  }

  /** The first closed descriptor from `i` on, or the length of the table. */
  function FreeFd(files: seq<Fd>, i: nat): (fd: nat)
    requires i <= |files|
    ensures i <= fd <= |files|
    ensures fd < |files| ==> files[fd].inode == 0
    ensures forall k :: i <= k < fd ==> files[k].inode != 0
    decreases |files| - i
  {
    if i == |files| || files[i].inode == 0 then i else FreeFd(files, i + 1)
  }

  function PutFd(files: seq<Fd>, fd: nat, f: Fd): seq<Fd>
    requires fd <= |files|
  {
    files[..fd] + [f] + (if fd == |files| then [] else files[fd + 1..])
  }

  /** With O_CREAT as its only other flag, `open` first tries to create the file. */
  predicate Creates(flag: int) {
    flag - flag % 4 == O_CREAT
  }

  ghost predicate CanOpen(w: World, path: seq<Name>, flag: int, now: nat) {
    && |w.files| >= FIRST_FD
    && (Creates(flag) ==> CanCreate(w.fs, path, now))
    && Walkable(if Creates(flag) then Create(w.fs, path, now).1 else w.fs, ROOT_INODE, path)
  }

  function Open(w: World, path: seq<Name>, flag: int, now: nat): (int, World)
    requires CanOpen(w, path, flag, now)
  {
    var fs := if Creates(flag) then Create(w.fs, path, now).1 else w.fs;
    OpenFound(World(fs, w.files), Walk(fs, ROOT_INODE, path), flag)
  }

  /** Opens the inode that the walk found, if it found a regular file. */
  function OpenFound(w: World, found: Option<nat>, flag: int): (int, World)
    requires |w.files| >= FIRST_FD && (found.Some? ==> IsInode(w.fs, found.value))
  {
    if found.None? || !IsReg(GetInode(w.fs, found.value)) then (FAILED, w)
    else
      var fd: int := FreeFd(w.files, FIRST_FD);
      (fd, w.(files := PutFd(w.files, fd, Fd(found.value, 0, flag))))
  }

  function Close(w: World, fd: int): (int, World) {
    if IsOpen(w.files, fd) then (0, w.(files := w.files[fd := CLOSED])) else (FAILED, w)
  }

  function Lseek(w: World, fd: int, offset: int, whence: int): (int, World)
    requires IsOpen(w.files, fd) ==> IsInode(w.fs, w.files[fd].inode)
  {
    if !IsOpen(w.files, fd) || whence < SEEK_SET || whence > SEEK_END then (FAILED, w)
    else
      var f := w.files[fd];
      var base :=
        if whence == SEEK_SET then 0 else if whence == SEEK_CUR then f.offset else GetInode(w.fs, f.inode).size;
      var moved: int := Wrap(base + offset);
      (moved, w.(files := w.files[fd := f.(offset := Wrap(base + offset))]))
  }

  ghost predicate CanReadFd(w: World, fd: int, count: nat, now: nat) {
    IsOpen(w.files, fd) && count > 0 && CanBeRead(w.files[fd].flag) ==>
      CanRead(w.fs, w.files[fd].inode, w.files[fd].offset, count, now)
  }

  /** The bytes read are returned; the offset stays where it is. */
  function Read(w: World, fd: int, count: nat, now: nat): (int, seq<byte>, World)
    requires CanReadFd(w, fd, count, now)
  {
    if !IsOpen(w.files, fd) then (FAILED, [], w)
    else if count == 0 then (0, [], w)
    else if !CanBeRead(w.files[fd].flag) then (FAILED, [], w)
    else
      var f := w.files[fd];
      var bytes := ReadFile(w.fs, f.inode, f.offset, count, now);
      (|bytes| as int, bytes, w.(fs := Accessed(w.fs, f.inode, now)))
  }

  ghost predicate CanWriteFd(w: World, fd: int, bytes: seq<byte>, now: nat) {
    IsOpen(w.files, fd) && bytes != [] && Writeable(w.files[fd].flag) ==>
      CanWrite(w.fs, w.files[fd].inode, w.files[fd].offset, |bytes|, now)
  }

  /** The bytes are stored at the offset, which moves behind them. */
  function Write(w: World, fd: int, bytes: seq<byte>, now: nat): (int, World)
    requires CanWriteFd(w, fd, bytes, now)
  {
    if !IsOpen(w.files, fd) then (FAILED, w)
    else if bytes == [] then (0, w)
    else if !Writeable(w.files[fd].flag) then (FAILED, w)
    else
      var f := w.files[fd];
      (|bytes| as int, World(WriteFile(w.fs, f.inode, f.offset, bytes, now),
          w.files[fd := f.(offset := Wrap(f.offset + |bytes|))]))
  }
}
