/** When `create` and `open` succeed, what they answer otherwise, and what a read after an `open` returns. */
module Outcomes {
  import opened Bytes
  import opened Geometry
  import opened Inodes
  import opened DirRecords
  import opened Fs
  import opened Invariant
  import opened DirUpdates
  import opened DirMaps
  import opened Files
  import opened FileTheory
  import opened Creation
  import opened Balance
  import opened Fathers
  import opened Namespace
  import opened World
  import opened Runs
  import opened Paths
  import opened DirChains
  import A = Allocation

  // ----- create -----

  /**
   * The last name is not too long, the others lead to a directory that does not have it, and there is an inode: the
   * bit of inode number n is at index n - 1.
   */
  ghost predicate Creatable(fs: Fs, path: seq<Name>) {
    && path != [] && |path[|path| - 1]| <= 255
    && var dirs, name := path[..|path| - 1], path[|path| - 1];
       && Walkable(fs, ROOT_INODE, dirs) && Walk(fs, ROOT_INODE, dirs).Some?
       && var dir := Walk(fs, ROOT_INODE, dirs).value;
          && LiveDir(fs, dir) && DirBlocksOk(fs, AllBlocks(fs, dir)) && !IsDot(name) && name !in MapOf(fs, dir)
          && exists j :: 10 <= j < |fs.inodeBits| && !fs.inodeBits[j]
  }

  lemma FileMadeIff(fs: Fs, dir: nat, name: Name, now: nat)
    requires Inv(fs) && LiveDir(fs, dir) && CanMakeFile(fs, dir, name, now)
    ensures DirBlocksOk(fs, AllBlocks(fs, dir))
    ensures MakeFile(fs, dir, name, now).0
        <==> !IsDot(name) && name !in MapOf(fs, dir) && exists j :: 10 <= j < |fs.inodeBits| && !fs.inodeBits[j]
    ensures !MakeFile(fs, dir, name, now).0 ==> MakeFile(fs, dir, name, now).1 == fs
  {
    hide Inv, MapOf, AllBlocks, Find, LiveDir, AddEntry, CanAddEntry, BornFile, Ialloc, FreeInodes;
    FindInMap(fs, dir, name);
    IallocCounts(fs);
  }

  /** `create` answers 0 exactly if the path can be created, and otherwise answers -1 and changes nothing. */
  lemma CreateSucceeds(fs: Fs, path: seq<Name>, now: nat)
    requires Inv(fs) && CanCreate(fs, path, now)
    ensures Create(fs, path, now).0 == 0 <==> Creatable(fs, path)
    ensures !Creatable(fs, path) ==> Create(fs, path, now) == (-1, fs)
  {
    hide Inv, MapOf, AllBlocks, LiveDir, MakeFile, CanMakeFile, TreesOk, Walk, Walkable;
    var dirs, name := path[..|path| - 1], path[|path| - 1];
    if |name| <= 255 && Walk(fs, ROOT_INODE, dirs).Some? {
      FileMadeIff(fs, Walk(fs, ROOT_INODE, dirs).value, name, now);
    }
  }

  // ----- open -----

  /** The lowest closed descriptor from 3 on is open now, at the start of the inode; all others are as before. */
  predicate Opened(files: seq<Fd>, fd: int, files': seq<Fd>, ino: nat, flag: int) {
    && 3 <= fd < |files'| && files'[fd] == Fd(ino, 0, flag) && |files| <= |files'| <= |files| + 1
    && (fd < |files| ==> files[fd].inode == 0) && (|files'| > |files| ==> fd == |files|)
    && (forall k :: 3 <= k < fd ==> files[k].inode != 0)
    && (forall k :: 0 <= k < |files| && k != fd ==> files'[k] == files[k])
  }

  lemma FoundOpens(w: World, found: Option<nat>, flag: int)
    requires |w.files| >= FIRST_FD && (found.Some? ==> Live(w.fs, found.value))
    ensures var (fd, w') := OpenFound(w, found, flag);
            && w'.fs == w.fs
            && if found.Some? && LiveFile(w.fs, found.value) then Opened(w.files, fd, w'.files, found.value, flag)
               else (fd, w') == (-1, w)
  {
    hide Live, IsReg;
  }

  /**
   * What `open` does with a path it does not create: it opens the regular file that the path leads to, and answers -1
   * and changes nothing if there is none.
   */
  ghost predicate OpensFound(w: World, path: seq<Name>, flag: int, fd: int, w': World) {
    && Walkable(w.fs, ROOT_INODE, path) && w'.fs == w.fs
    && var found := Walk(w.fs, ROOT_INODE, path);
       if found.Some? && LiveFile(w.fs, found.value) then Opened(w.files, fd, w'.files, found.value, flag)
       else (fd, w') == (-1, w)
  }

  /** What `open` does with a path it creates: it opens a new empty file, to which the path leads now. */
  ghost predicate OpensNew(w: World, path: seq<Name>, flag: int, fd: int, w': World) {
    && Walkable(w.fs, ROOT_INODE, path) && Walk(w.fs, ROOT_INODE, path) == None
    && Walkable(w'.fs, ROOT_INODE, path) && Walk(w'.fs, ROOT_INODE, path).Some?
    && var ino := Walk(w'.fs, ROOT_INODE, path).value;
       && !Live(w.fs, ino) && LiveFile(w'.fs, ino) && Readable(w'.fs, ino) && Content(w'.fs, ino) == []
       && Opened(w.files, fd, w'.files, ino, flag)
  }

  lemma OpensWalked(w: World, path: seq<Name>, flag: int)
    requires Good(w) && Walkable(w.fs, ROOT_INODE, path)
    ensures var found := Walk(w.fs, ROOT_INODE, path);
            && |w.files| >= FIRST_FD && (found.Some? ==> Live(w.fs, found.value))
            && OpensFound(w, path, flag, OpenFound(w, found, flag).0, OpenFound(w, found, flag).1)
  {
    assert Live(w.fs, ROOT_INODE) && |w.files| >= FIRST_FD && Inv(w.fs);
    hide Good, Inv, Live, OpenFound, Walk, Walkable, LiveFile;
    WalkLive(w.fs, ROOT_INODE, path);
    FoundOpens(w, Walk(w.fs, ROOT_INODE, path), flag);
  }

  /**
   * With O_CREAT and any access mode as its flag a path that can be created is; in all other cases `open` looks for a
   * file that exists.
   */
  lemma OpenAnswers(w: World, path: seq<Name>, flag: int, now: nat)
    requires Good(w) && CanOpen(w, path, flag, now)
    ensures var (fd, w') := Open(w, path, flag, now);
            if flag in {0x40, 0x41, 0x42, 0x43} && Creatable(w.fs, path) then OpensNew(w, path, flag, fd, w')
            else OpensFound(w, path, flag, fd, w')
  {
    assert Creates(flag) <==> flag in {0x40, 0x41, 0x42, 0x43};
    assert Inv(w.fs);
    hide Good, Inv, Creatable, Create, CanCreate, Walk, Walkable, Opened, OpenFound, LiveFile, Live, Content, Readable,
         Creates, Ialloc, OpensFound;
    var fs := if Creates(flag) then Create(w.fs, path, now).1 else w.fs;
    if Creates(flag) {
      CreateSucceeds(w.fs, path, now);
    }
    if Creates(flag) && Creatable(w.fs, path) {
      CreatedIsFound(w.fs, path, now);
      NewOpens(w, path, flag, now);
    } else {
      OpensWalked(w, path, flag);
    }
  }

  lemma NewOpens(w: World, path: seq<Name>, flag: int, now: nat)
    requires Good(w) && CanCreate(w.fs, path, now) && Create(w.fs, path, now).0 == 0
    requires Walkable(Create(w.fs, path, now).1, ROOT_INODE, path)
    ensures var w1 := w.(fs := Create(w.fs, path, now).1);
            var found := Walk(w1.fs, ROOT_INODE, path);
            && |w.files| >= FIRST_FD && (found.Some? ==> Live(w1.fs, found.value))
            && OpensFound(w1, path, flag, OpenFound(w1, found, flag).0, OpenFound(w1, found, flag).1)
  {
    hide Good, Create, CanCreate, Walk, Walkable, OpenFound, OpensFound, Live, Advances, FilesKept, NamesGrow, Tree,
         FathersAgree, Accounts;
    CreateCallKeeps(w, path, now);
    OpensWalked(w.(fs := Create(w.fs, path, now).1), path, flag);
  }

  lemma ReadsFromStart(w: World, fd: int, ino: nat, count: nat, now: nat)
    requires Good(w) && 0 <= fd < |w.files| && w.files[fd] == Fd(ino, 0, 0) && LiveFile(w.fs, ino) && Word(now)
    requires 0 < count < 0x1_0000_0000_0000_0000
    ensures CanReadFd(w, fd, count, now) && Readable(w.fs, ino)
    ensures var (n, bytes, w') := Read(w, fd, count, now);
            bytes == Content(w.fs, ino)[..Min(count, |Content(w.fs, ino)|)] && n == |bytes|
  {
    hide Good, Content, Readable, Read, CanReadFd;
    ReadThrough(w, fd, count, now);
  }

  /** A file that is opened for reading only is read from its start. */
  lemma OpenThenRead(w: World, path: seq<Name>, ino: nat, count: nat, now: nat)
    requires Good(w) && Walkable(w.fs, ROOT_INODE, path) && Walk(w.fs, ROOT_INODE, path) == Some(ino)
    requires LiveFile(w.fs, ino) && 0 < count < 0x1_0000_0000_0000_0000 && Word(now)
    ensures CanOpen(w, path, 0, now) && Readable(w.fs, ino)
    ensures var (fd, w1) := Open(w, path, 0, now);
            && CanReadFd(w1, fd, count, now)
            && var (n, bytes, w2) := Read(w1, fd, count, now);
               bytes == Content(w.fs, ino)[..Min(count, |Content(w.fs, ino)|)] && n == |bytes|
  {
    hide Walk, Walkable, Content, Readable, LiveFile, Good, Read, CanReadFd, Open, FsStep;
    CanOpenPlain(w, path);
    OpenAnswers(w, path, 0, now);
    OpenCallKeeps(w, path, 0, now);
    var (fd, w1) := Open(w, path, 0, now);
    ReadsFromStart(w1, fd, ino, count, now);
  }

  lemma CanOpenPlain(w: World, path: seq<Name>)
    requires Good(w) && Walkable(w.fs, ROOT_INODE, path)
    ensures forall now: nat :: CanOpen(w, path, 0, now)
  {
    hide Inv, Walkable;
  }
}
