/** Whole runs of the interface: ownership, isolation and what each call promises. */
module Runs {
  import opened Bytes
  import opened Geometry
  import opened Inodes
  import opened DirRecords
  import opened Fs
  import opened Invariant
  import opened DirUpdates
  import opened DirMaps
  import opened Files
  import opened FileTheory
  import opened Creation
  import opened Balance
  import opened Fathers
  import opened Namespace
  import opened World
  import A = Allocation
  import B = DirBlock

  // ----- walks end at live inodes -----

  lemma {:induction false} CollectLive(fs: Fs, acc: seq<Entry>, recs: seq<Rec>)
    requires EntriesLive(fs, recs) && forall k :: 0 <= k < |acc| ==> Live(fs, acc[k].inode)
    ensures forall k :: 0 <= k < |Collect(acc, recs)| ==> Live(fs, Collect(acc, recs)[k].inode)
    decreases |recs|
  {
    hide Live;
    if recs != [] {
      var acc' := if |acc| > 2 && IsDot(recs[0].name) then acc else acc + [ToEntry(recs[0])];
      assert forall k :: 0 <= k < |acc'| ==> Live(fs, acc'[k].inode);
      CollectLive(fs, acc', recs[1..]);
    }
  }

  lemma {:induction false} CollectBlocksLive(fs: Fs, acc: seq<Entry>, blocks: seq<nat>, ino: nat, i: nat)
    requires DirBlocksOk(fs, blocks) && i <= |blocks| && forall k :: 0 <= k < |acc| ==> Live(fs, acc[k].inode)
    requires forall k :: 0 <= k < |blocks| ==> DirBlockGood(fs, blocks[k], ino)
    ensures forall k :: 0 <= k < |CollectBlocks(fs, acc, blocks, i)| ==>
              Live(fs, CollectBlocks(fs, acc, blocks, i)[k].inode)
    decreases |blocks| - i
  {
    hide Live, Collect, B.Chain, B.Parse, Shaped;
    if i < |blocks| {
      assert DirBlockGood(fs, blocks[i], ino);
      CollectLive(fs, acc, RecsOf(fs, blocks[i]));
      CollectBlocksLive(fs, Collect(acc, RecsOf(fs, blocks[i])), blocks, ino, i + 1);
    }
  }

  /** What a lookup in a live directory finds is a live inode. */
  lemma FoundLive(fs: Fs, ino: nat, name: Name)
    requires Inv(fs) && LiveDir(fs, ino) && DirBlocksOk(fs, AllBlocks(fs, ino))
    ensures Find(fs, ino, name).Some? ==> Live(fs, Find(fs, ino, name).value)
  {
    DirFacts(fs, ino);
    hide Inv, DirectOnly, Owned, DirBlockGood, B.Chain, TreesOk, Direct, Collect, AllBlocks, Live;
    DirParts(fs, ino, List(fs, ino));
    CollectBlocksLive(fs, [], List(fs, ino), ino, 0);
  }

  lemma {:induction false} WalkLive(fs: Fs, ino: nat, path: seq<Name>)
    requires Inv(fs) && Live(fs, ino) && Walkable(fs, ino, path)
    ensures Walk(fs, ino, path).Some? ==> Live(fs, Walk(fs, ino, path).value)
    decreases |path|
  {
    hide Inv, Live, Find, AllBlocks, TreesOk, B.Chain;
    if path != [] && Find(fs, ino, path[0]).Some? {
      FoundLive(fs, ino, path[0]);
      WalkLive(fs, Find(fs, ino, path[0]).value, path[1..]);
    }
  }

  // ----- the invariant of the interface -----

  /** Every open descriptor refers to a live regular file. */
  ghost predicate FdsGood(w: World) {
    && |w.files| >= FIRST_FD
    && forall fd :: 0 <= fd < |w.files| && w.files[fd].inode != 0 ==>
         LiveFile(w.fs, w.files[fd].inode) && w.files[fd].offset < 0x1_0000_0000
  }

  ghost predicate Good(w: World) {
    Inv(w.fs) && FdsGood(w)
  }

  datatype Op =
    | OpCreate(path: seq<Name>)
    | OpMkdir(path: seq<Name>)
    | OpOpen(path: seq<Name>, flag: int)
    | OpClose(fd: int)
    | OpLseek(fd: int, offset: int, whence: int)
    | OpRead(fd: int, count: nat)
    | OpWrite(fd: int, bytes: seq<byte>)

  /** A call with the time at which it is made. */
  datatype Call = Call(op: Op, now: nat)

  ghost predicate Can(w: World, c: Call) {
    && Word(c.now)
    && match c.op
       case OpCreate(path) => CanCreate(w.fs, path, c.now)
       case OpMkdir(path) => CanMakeDirs(w.fs, ROOT_INODE, path, c.now)
       case OpOpen(path, flag) => CanOpen(w, path, flag, c.now)
       case OpClose(fd) => true
       case OpLseek(fd, offset, whence) => IsOpen(w.files, fd) ==> IsInode(w.fs, w.files[fd].inode)
       case OpRead(fd, count) => CanReadFd(w, fd, count, c.now)
       case OpWrite(fd, bytes) => CanWriteFd(w, fd, bytes, c.now)
  }

  /** The world after a call. */
  function Step(w: World, c: Call): World
    requires Can(w, c)
  {
    match c.op
    case OpCreate(path) => w.(fs := Create(w.fs, path, c.now).1)
    case OpMkdir(path) => w.(fs := MakeDirs(w.fs, ROOT_INODE, path, c.now).1)
    case OpOpen(path, flag) => Open(w, path, flag, c.now).1
    case OpClose(fd) => Close(w, fd).1
    case OpLseek(fd, offset, whence) => Lseek(w, fd, offset, whence).1
    case OpRead(fd, count) => Read(w, fd, count, c.now).2
    case OpWrite(fd, bytes) => Write(w, fd, bytes, c.now).1
  }

  /** What a step on the file system alone must do to keep a good world good. */
  ghost predicate Advances(fs: Fs, fs': Fs) {
    && Inv(fs') && fs'.g == fs.g && fs'.super == fs.super
    && forall a :: Live(fs, a) ==> Live(fs', a) && IsReg(GetInode(fs', a)) == IsReg(GetInode(fs, a))
                                   && IsDir(GetInode(fs', a)) == IsDir(GetInode(fs, a))
  }

  /** No bytes of a live file change, except perhaps of the file `ino`. */
  ghost predicate FilesKept(fs: Fs, fs': Fs, ino: nat) {
    forall a :: LiveFile(fs, a) && a != ino ==>
      LiveFile(fs', a) && Readable(fs, a) && Readable(fs', a) && Content(fs', a) == Content(fs, a)
  }

  /** The directory has the same names with the same meaning. */
  ghost predicate SameNames(fs: Fs, fs': Fs, a: nat) {
    && LiveDir(fs, a) && LiveDir(fs', a) && DirBlocksOk(fs, AllBlocks(fs, a)) && DirBlocksOk(fs', AllBlocks(fs', a))
    && MapOf(fs', a) == MapOf(fs, a) && Find(fs', a, DOT_DOT) == Find(fs, a, DOT_DOT)
  }

  /** The directory has the same names with the same meaning, and perhaps more. */
  ghost predicate MoreNames(fs: Fs, fs': Fs, a: nat) {
    && LiveDir(fs, a) && LiveDir(fs', a) && DirBlocksOk(fs, AllBlocks(fs, a)) && DirBlocksOk(fs', AllBlocks(fs', a))
    && (forall name :: name in MapOf(fs, a) ==> name in MapOf(fs', a) && MapOf(fs', a)[name] == MapOf(fs, a)[name])
    && Find(fs', a, DOT_DOT) == Find(fs, a, DOT_DOT)
  }

  ghost predicate NamesKept(fs: Fs, fs': Fs) {
    forall a :: LiveDir(fs, a) ==> SameNames(fs, fs', a)
  }

  ghost predicate NamesGrow(fs: Fs, fs': Fs) {
    forall a :: LiveDir(fs, a) ==> MoreNames(fs, fs', a)
  }

  // ----- steps of the file system -----

  lemma KindsDiffer(i: Inode)
    ensures !(IsReg(i) && IsDir(i))
  {
  }

  /** Other inodes are undisturbed, and `ino` keeps its kind. */
  lemma AdvancesBy(fs: Fs, fs': Fs, ino: nat)
    requires Inv(fs') && fs'.g == fs.g && fs'.super == fs.super && KeepsOthers(fs, fs', ino)
    requires Live(fs, ino) ==>
               && Live(fs', ino) && IsReg(GetInode(fs', ino)) == IsReg(GetInode(fs, ino))
               && IsDir(GetInode(fs', ino)) == IsDir(GetInode(fs, ino))
    ensures Advances(fs, fs')
  {
    hide Inv;
    forall a | Live(fs, a)
      ensures Live(fs', a) && IsReg(GetInode(fs', a)) == IsReg(GetInode(fs, a))
          && IsDir(GetInode(fs', a)) == IsDir(GetInode(fs, a))
    {
      if a != ino {
        UndisturbedMeans(fs, fs', a);
      }
    }
  }

  lemma FilesKeptBy(fs: Fs, fs': Fs, ino: nat)
    requires Inv(fs) && Inv(fs') && KeepsOthers(fs, fs', ino)
    ensures FilesKept(fs, fs', ino)
  {
    hide Inv, Undisturbed, Live, Content, Readable;
    forall a | LiveFile(fs, a) && a != ino
      ensures LiveFile(fs', a) && Readable(fs, a) && Readable(fs', a) && Content(fs', a) == Content(fs, a)
    {
      ContentKept(fs, fs', a);
    }
  }

  /** A write through one descriptor changes no other file and no directory. */
  lemma FileStep(fs: Fs, fs': Fs, ino: nat)
    requires Inv(fs) && Inv(fs') && LiveFile(fs, ino) && LiveFile(fs', ino) && Changes(fs, fs', ino)
    requires fs'.g == fs.g && fs'.super == fs.super
    ensures Advances(fs, fs') && FilesKept(fs, fs', ino) && NamesKept(fs, fs')
  {
    ChangesKeepsOthers(fs, fs', ino);
    KindsDiffer(GetInode(fs, ino));
    KindsDiffer(GetInode(fs', ino));
    hide Inv, Changes, Undisturbed, MapOf, AllBlocks, B.Chain, Find;
    AdvancesBy(fs, fs', ino);
    FilesKeptBy(fs, fs', ino);
    forall a | LiveDir(fs, a) ensures SameNames(fs, fs', a) {
      MapKept(fs, fs', a);
      FatherKept(fs, fs', a);
    }
  }

  lemma NamesKeptGrow(fs: Fs, fs': Fs)
    requires NamesKept(fs, fs')
    ensures NamesGrow(fs, fs')
  {
    hide LiveDir, MapOf, AllBlocks, Find;
    forall a | LiveDir(fs, a) ensures MoreNames(fs, fs', a) {
      assert SameNames(fs, fs', a);
    }
  }

  lemma EnterFiles(fs: Fs, fs': Fs, dir: nat, name: Name, nid: nat)
    requires Inv(fs) && Entered(fs, fs', dir, name, nid) && fs'.g == fs.g && fs'.super == fs.super
    ensures Advances(fs, fs') && FilesKept(fs, fs', 0)
  {
    KindsDiffer(GetInode(fs, dir));
    KindsDiffer(GetInode(fs', dir));
    hide Inv, Undisturbed, MapOf, AllBlocks, B.Chain, Content, Readable;
    AdvancesBy(fs, fs', dir);
    FilesKeptBy(fs, fs', dir);
    forall a | LiveFile(fs, a) ensures a != dir {
      KindsDiffer(GetInode(fs, a));
    }
  }

  lemma EnterNames(fs: Fs, fs': Fs, dir: nat, name: Name, nid: nat)
    requires Inv(fs) && Entered(fs, fs', dir, name, nid)
    ensures NamesGrow(fs, fs')
  {
    hide Inv, Undisturbed, MapOf, AllBlocks, B.Chain, LiveDir, KeepsOthers, Find;
    forall a | LiveDir(fs, a) ensures MoreNames(fs, fs', a) {
      if a != dir {
        OthersLive(fs, fs', dir, a);
        MapKept(fs, fs', a);
        FatherKept(fs, fs', a);
      }
    }
  }

  lemma OthersLive(fs: Fs, fs': Fs, ino: nat, a: nat)
    requires KeepsOthers(fs, fs', ino) && LiveDir(fs, a) && a != ino
    ensures Live(fs', a) && Undisturbed(fs, fs', a)
  {
    hide Undisturbed;
  }

  ghost predicate FsStep(fs: Fs, fs': Fs, ino: nat) {
    && Inv(fs') && Advances(fs, fs') && FilesKept(fs, fs', ino) && NamesGrow(fs, fs') && Accounts(fs, fs')
    && (Tree(fs) ==> Tree(fs')) && (FathersAgree(fs) ==> FathersAgree(fs'))
  }

  lemma StepSelf(fs: Fs, ino: nat)
    requires Inv(fs)
    ensures FsStep(fs, fs, ino)
  {
    hide Inv, MapOf, AllBlocks, Content, Readable, Find, Tree, FathersAgree, Accounts;
    SameAccounts(fs, fs);
    forall a | LiveFile(fs, a) ensures Readable(fs, a) {
      FileReadable(fs, a);
    }
    forall a | LiveDir(fs, a) ensures MoreNames(fs, fs, a) {
      DirReadable(fs, a);
    }
  }

  lemma NamesGrowTwice(fs: Fs, mid: Fs, fs': Fs)
    requires NamesGrow(fs, mid) && NamesGrow(mid, fs')
    ensures NamesGrow(fs, fs')
  {
    hide LiveDir, MapOf, AllBlocks, Find;
    forall a | LiveDir(fs, a) ensures MoreNames(fs, fs', a) {
      assert MoreNames(fs, mid, a) && MoreNames(mid, fs', a);
    }
  }

  lemma StepTwice(fs: Fs, mid: Fs, fs': Fs, ino: nat)
    requires FsStep(fs, mid, ino) && FsStep(mid, fs', ino)
    ensures FsStep(fs, fs', ino)
  {
    hide Inv, MapOf, AllBlocks, Content, Readable, DirBlocksOk, Find, Tree, FathersAgree, Accounts;
    hide NamesGrow;
    NamesGrowTwice(fs, mid, fs');
    AccountsTwice(fs, mid, fs');
  }

  // ----- the calls -----

  lemma AddEntryFrame(fs: Fs, ino: nat, e: Entry)
    requires CanAddEntry(fs, ino, e)
    ensures AddEntry(fs, ino, e).g == fs.g && AddEntry(fs, ino, e).super == fs.super
    ensures AddEntry(fs, ino, e).inodeBits == fs.inodeBits
  {
    hide B.Chain, B.AddEntry, AllBlocks, FirstEntry, FirstTaker, Direct, FreeFrom, Marked, Father;
  }

  lemma MakeFileFrame(fs: Fs, dir: nat, name: Name, now: nat)
    requires CanMakeFile(fs, dir, name, now)
    ensures MakeFile(fs, dir, name, now).1.g == fs.g && MakeFile(fs, dir, name, now).1.super == fs.super
  {
    hide AddEntry, CanAddEntry, Find, AllBlocks, NextFreeInode, InitInode;
    if IsFree(fs, dir, name) {
      AddEntryFrame(BornFile(Ialloc(fs).1, Ialloc(fs).0, now), dir, Entry(Ialloc(fs).0, FT_REG_FILE, name));
    }
  }

  lemma FindOrMakeFrame(fs: Fs, dir: nat, name: Name, now: nat)
    requires CanMakeDir(fs, dir, name, now)
    ensures FindOrMake(fs, dir, name, now).2.g == fs.g && FindOrMake(fs, dir, name, now).2.super == fs.super
    ensures FindOrMake(fs, dir, name, now).1 ==>
              FindOrMake(fs, dir, name, now).2.inodeBits == Ialloc(fs).1.inodeBits
  {
    hide AddEntry, CanAddEntry, Find, AllBlocks, NextFreeInode, DirInode, B.InitBlock, FreeFrom, Marked, Ok;
    if IsFree(fs, dir, name) {
      AddEntryFrame(BornDir(Ialloc(fs).1, Ialloc(fs).0, dir, now), dir, Entry(Ialloc(fs).0, FT_DIR, name));
    }
  }

  lemma MakeFileStep(fs: Fs, dir: nat, name: Name, now: nat)
    requires Inv(fs) && LiveDir(fs, dir) && CanMakeFile(fs, dir, name, now)
    ensures FsStep(fs, MakeFile(fs, dir, name, now).1, 0)
  {
    hide Inv, LiveDir, MakeFile, CanMakeFile, Entered, Advances, FilesKept, NamesGrow, Tree, FathersAgree, Accounts,
         LiveFile, Readable, Content, MapOf, AllBlocks;
    MakeFileKeeps(fs, dir, name, now);
    MakeFileAccounts(fs, dir, name, now);
    MakeFileFrame(fs, dir, name, now);
    var (made, fs') := MakeFile(fs, dir, name, now);
    if made {
      FileEmptyUnder(fs', Ialloc(fs).0, dir);
      if FathersAgree(fs) {
        MakeFileFathers(fs, dir, name, now);
      }
      EnteredStep(fs, fs', dir, name, Ialloc(fs).0);
    } else {
      StepSelf(fs, 0);
    }
  }

  lemma FileEmptyUnder(fs: Fs, nid: nat, dir: nat)
    requires LiveFile(fs, nid)
    ensures EmptyUnder(fs, nid, dir)
  {
    KindsDiffer(GetInode(fs, nid));
    hide IsReg, IsDir, FatherIs, Names;
  }

  lemma EnteredStep(fs: Fs, fs': Fs, dir: nat, name: Name, nid: nat)
    requires Inv(fs) && Entered(fs, fs', dir, name, nid) && fs'.g == fs.g && fs'.super == fs.super
    requires EmptyUnder(fs', nid, dir) && Accounts(fs, fs') && (FathersAgree(fs) ==> FathersAgree(fs'))
    ensures FsStep(fs, fs', 0)
  {
    hide Inv, Advances, FilesKept, NamesGrow, EmptyUnder, Tree, FathersAgree, Accounts, LeafAdded, KeepsOthers,
         NoneBorn, MapOf, AllBlocks, Find, DirBlocksOk, LiveDir, Live;
    EnterFiles(fs, fs', dir, name, nid);
    EnterNames(fs, fs', dir, name, nid);
    if Tree(fs) {
      EnteredAdds(fs, fs', dir, name, nid);
      TreeGrows(fs, fs', dir, name, nid);
    }
  }

  lemma FindOrMakeStep(fs: Fs, dir: nat, name: Name, now: nat)
    requires Inv(fs) && LiveDir(fs, dir) && CanMakeDir(fs, dir, name, now)
    ensures FsStep(fs, FindOrMake(fs, dir, name, now).2, 0)
    ensures FindOrMake(fs, dir, name, now).1 ==>
              FindOrMake(fs, dir, name, now).0.Some?
                  && LiveDir(FindOrMake(fs, dir, name, now).2, FindOrMake(fs, dir, name, now).0.value)
  {
    hide Inv, LiveDir, FindOrMake, CanMakeDir, Entered, Advances, FilesKept, NamesGrow, Tree, FathersAgree, Accounts,
         MapOf, AllBlocks, Find;
    MakeDirKeeps(fs, dir, name, now);
    MakeDirAccounts(fs, dir, name, now);
    FindOrMakeFrame(fs, dir, name, now);
    var (found, made, fs') := FindOrMake(fs, dir, name, now);
    if made {
      if FathersAgree(fs) {
        MakeDirFathers(fs, dir, name, now);
      }
      EnteredStep(fs, fs', dir, name, found.value);
    } else {
      StepSelf(fs, 0);
    }
  }

  lemma CreateStep(fs: Fs, path: seq<Name>, now: nat)
    requires Inv(fs) && CanCreate(fs, path, now)
    ensures FsStep(fs, Create(fs, path, now).1, 0)
  {
    hide Inv, Advances, FilesKept, NamesGrow, Tree, FathersAgree, Accounts, MakeFile, CanMakeFile, LiveDir, Walk,
         Walkable, TreesOk;
    StepSelf(fs, 0);
    var dirs, name := path[..|path| - 1], path[|path| - 1];
    if |name| <= NAME_LEN && Walk(fs, ROOT_INODE, dirs).Some? {
      MakeFileStep(fs, Walk(fs, ROOT_INODE, dirs).value, name, now);
    }
  }

  lemma {:induction false} MakeDirsStep(fs: Fs, ino: nat, path: seq<Name>, now: nat)
    requires Inv(fs) && CanMakeDirs(fs, ino, path, now)
    ensures FsStep(fs, MakeDirs(fs, ino, path, now).1, 0)
    decreases |path|
  {
    hide Inv, Advances, FilesKept, NamesGrow, Tree, FathersAgree, Accounts, FindOrMake, CanMakeDir, LiveDir, TreesOk;
    if path == [] {
      StepSelf(fs, 0);
    } else {
      FindOrMakeStep(fs, ino, path[0], now);
      var (found, made, fs') := FindOrMake(fs, ino, path[0], now);
      if made {
        MakeDirsStep(fs', found.value, path[1..], now);
        StepTwice(fs, fs', MakeDirs(fs', found.value, path[1..], now).1, 0);
      }
    }
  }

  // ----- every call keeps the interface good -----

  lemma FdsKept(w: World, fs': Fs)
    requires FdsGood(w) && Advances(w.fs, fs')
    ensures FdsGood(World(fs', w.files))
  {
    hide Inv;
  }

  lemma FdGood(w: World, fd: int)
    requires FdsGood(w) && IsOpen(w.files, fd)
    ensures LiveFile(w.fs, w.files[fd].inode) && w.files[fd].offset < 0x1_0000_0000
  {
  }

  /** The file that a call writes to, or 0. */
  function WrittenTo(w: World, c: Call): nat {
    if c.op.OpWrite? && IsOpen(w.files, c.op.fd) then w.files[c.op.fd].inode else 0
  }

  /** A call that changes the file system as a step and leaves the descriptors alone. */
  lemma FsCallKeeps(w: World, fs': Fs)
    requires Good(w) && FsStep(w.fs, fs', 0)
    ensures Good(World(fs', w.files))
  {
    hide Inv, FilesKept, NamesGrow, FdsGood, Advances, Tree, FathersAgree, Accounts;
    FdsKept(w, fs');
  }

  lemma WriteCallKeeps(w: World, fd: int, bytes: seq<byte>, now: nat)
    requires Good(w) && CanWriteFd(w, fd, bytes, now)
    ensures Good(Write(w, fd, bytes, now).1)
    ensures FsStep(w.fs, Write(w, fd, bytes, now).1.fs, if IsOpen(w.files, fd) then w.files[fd].inode else 0)
  {
    hide Inv, Advances, FilesKept, NamesGrow, Tree, FathersAgree, Accounts, WriteFile, CanWrite, LiveFile, RoomToWrite,
         Wrap, Content, Readable, Overwritten;
    if IsOpen(w.files, fd) && bytes != [] && Writeable(w.files[fd].flag) {
      var f := w.files[fd];
      FdGood(w, fd);
      WritePossible(w.fs, f.inode, f.offset, |bytes|, now);
      WriteRefines(w.fs, f.inode, f.offset, bytes, now);
      WriteAccounts(w.fs, f.inode, f.offset, bytes, now);
      var fs' := WriteFile(w.fs, f.inode, f.offset, bytes, now);
      FileStepIs(w.fs, fs', f.inode);
      FdsKept(w, fs');
    } else {
      StepSelf(w.fs, if IsOpen(w.files, fd) then w.files[fd].inode else 0);
    }
  }

  lemma NotDir(fs: Fs, ino: nat)
    requires LiveFile(fs, ino)
    ensures !LiveDir(fs, ino)
  {
    KindsDiffer(GetInode(fs, ino));
  }

  lemma FileStepIs(fs: Fs, fs': Fs, ino: nat)
    requires Inv(fs) && Inv(fs') && LiveFile(fs, ino) && LiveFile(fs', ino) && Changes(fs, fs', ino)
    requires fs'.g == fs.g && fs'.super == fs.super && Accounts(fs, fs')
    ensures FsStep(fs, fs', ino)
  {
    hide Inv, Changes, Advances, FilesKept, NamesKept, NamesGrow, LiveFile, Tree, FathersAgree, Accounts, SameTree;
    FileStep(fs, fs', ino);
    NamesKeptGrow(fs, fs');
    FileChangeSame(fs, fs', ino);
    NotDir(fs', ino);
    if FathersAgree(fs) {
      FileChangeFathers(fs, fs', ino);
    }
    if Tree(fs) {
      TreeKept(fs, fs');
    }
  }

  lemma ReadCallKeeps(w: World, fd: int, count: nat, now: nat)
    requires Good(w) && CanReadFd(w, fd, count, now) && Word(now)
    ensures Good(Read(w, fd, count, now).2) && FsStep(w.fs, Read(w, fd, count, now).2.fs, 0)
    ensures Read(w, fd, count, now).2.files == w.files
  {
    hide Inv, Advances, FilesKept, NamesGrow, Tree, FathersAgree, Accounts, ReadFile, CanRead, LiveFile, Accessed,
         Content, Readable;
    StepSelf(w.fs, 0);
    if IsOpen(w.files, fd) && count > 0 && CanBeRead(w.files[fd].flag) {
      var ino := w.files[fd].inode;
      FdGood(w, fd);
      AccessedKeeps(w.fs, ino, now);
      ReadKeeps(w.fs, ino, now);
      AccessAccounts(w.fs, ino, now);
      var fs' := Accessed(w.fs, ino, now);
      FileStepIs(w.fs, fs', ino);
      ReadTouchesNone(w.fs, fs', ino);
      FsCallKeeps(w, fs');
    }
  }

  lemma ReadTouchesNone(fs: Fs, fs': Fs, ino: nat)
    requires FsStep(fs, fs', ino) && LiveFile(fs, ino) && LiveFile(fs', ino)
    requires Readable(fs, ino) && Readable(fs', ino) && Content(fs', ino) == Content(fs, ino)
    ensures FsStep(fs, fs', 0)
  {
    hide Advances, NamesGrow, Content, Readable, Tree, FathersAgree, Accounts;
  }

  lemma OpenCallKeeps(w: World, path: seq<Name>, flag: int, now: nat)
    requires Good(w) && CanOpen(w, path, flag, now)
    ensures Good(Open(w, path, flag, now).1) && FsStep(w.fs, Open(w, path, flag, now).1.fs, 0)
  {
    var fs := if Creates(flag) then Create(w.fs, path, now).1 else w.fs;
    hide Ok, A.MetaMarked, AllGood, AllDisjoint, Live, Advances, FilesKept, NamesGrow, Tree, FathersAgree, Accounts,
         Create, CanCreate, Walk, Walkable, OpenFound, FdsGood;
    if Creates(flag) {
      CreateStep(w.fs, path, now);
    } else {
      StepSelf(w.fs, 0);
    }
    FsCallKeeps(w, fs);
    WalkLive(fs, ROOT_INODE, path);
    OpenFoundKeeps(World(fs, w.files), Walk(fs, ROOT_INODE, path), flag);
  }

  lemma OpenFoundKeeps(w: World, found: Option<nat>, flag: int)
    requires |w.files| >= FIRST_FD && (found.Some? ==> Live(w.fs, found.value)) && Good(w)
    ensures Good(OpenFound(w, found, flag).1) && OpenFound(w, found, flag).1.fs == w.fs
  {
    hide Inv, Live;
  }

  lemma LseekCallKeeps(w: World, fd: int, offset: int, whence: int)
    requires Good(w) && (IsOpen(w.files, fd) ==> IsInode(w.fs, w.files[fd].inode))
    ensures Good(Lseek(w, fd, offset, whence).1) && Lseek(w, fd, offset, whence).1.fs == w.fs
  {
    hide Inv, LiveFile;
  }

  lemma CloseCallKeeps(w: World, fd: int)
    requires Good(w)
    ensures Good(Close(w, fd).1) && Close(w, fd).1.fs == w.fs
  {
    hide Inv, LiveFile;
  }

  lemma CreateCallKeeps(w: World, path: seq<Name>, now: nat)
    requires Good(w) && CanCreate(w.fs, path, now)
    ensures Good(w.(fs := Create(w.fs, path, now).1)) && FsStep(w.fs, Create(w.fs, path, now).1, 0)
  {
    hide Inv, Advances, FilesKept, NamesGrow, Tree, FathersAgree, Accounts, FdsGood, Create, CanCreate;
    CreateStep(w.fs, path, now);
    FsCallKeeps(w, Create(w.fs, path, now).1);
  }

  lemma MkdirCallKeeps(w: World, path: seq<Name>, now: nat)
    requires Good(w) && CanMakeDirs(w.fs, ROOT_INODE, path, now)
    ensures Good(w.(fs := MakeDirs(w.fs, ROOT_INODE, path, now).1))
        && FsStep(w.fs, MakeDirs(w.fs, ROOT_INODE, path, now).1, 0)
  {
    hide Inv, Advances, FilesKept, NamesGrow, Tree, FathersAgree, Accounts, FdsGood, MakeDirs, CanMakeDirs;
    MakeDirsStep(w.fs, ROOT_INODE, path, now);
    FsCallKeeps(w, MakeDirs(w.fs, ROOT_INODE, path, now).1);
  }

  /** Every call keeps the interface good, changes the bytes of at most the file it writes, and loses no name. */
  lemma StepKeeps(w: World, c: Call)
    requires Good(w) && Can(w, c)
    ensures Good(Step(w, c)) && FsStep(w.fs, Step(w, c).fs, WrittenTo(w, c))
  {
    hide Inv, FdsGood, Advances, FilesKept, NamesGrow, Tree, FathersAgree, Accounts, Create, CanCreate, MakeDirs,
         CanMakeDirs, Open, CanOpen, Read, CanReadFd, Write, CanWriteFd, Lseek, Close;
    match c.op
    case OpCreate(path) =>
      CreateCallKeeps(w, path, c.now);
    case OpMkdir(path) =>
      MkdirCallKeeps(w, path, c.now);
    case OpOpen(path, flag) =>
      OpenCallKeeps(w, path, flag, c.now);
    case OpClose(fd) =>
      CloseCallKeeps(w, fd);
      StepSelf(w.fs, 0);
    case OpLseek(fd, offset, whence) =>
      LseekCallKeeps(w, fd, offset, whence);
      StepSelf(w.fs, 0);
    case OpRead(fd, count) =>
      ReadCallKeeps(w, fd, count, c.now);
    case OpWrite(fd, bytes) =>
      WriteCallKeeps(w, fd, bytes, c.now);
  }

  lemma OpenIsInode(w: World, fd: int)
    requires Good(w)
    ensures IsOpen(w.files, fd) ==> IsInode(w.fs, w.files[fd].inode)
  {
    if IsOpen(w.files, fd) {
      FdGood(w, fd);
    }
  }

  lemma MadeInv(fs: Fs, dir: nat, name: Name, now: nat)
    requires Inv(fs) && LiveDir(fs, dir) && CanMakeDir(fs, dir, name, now)
    ensures Inv(FindOrMake(fs, dir, name, now).2)
  {
    hide Inv, FindOrMake, CanMakeDir, Advances, FilesKept, NamesGrow, Tree, FathersAgree, Accounts;
    FindOrMakeStep(fs, dir, name, now);
  }

  // ----- runs -----

  ghost predicate CanRun(w: World, calls: seq<Call>)
    decreases |calls|
  {
    calls != [] ==> Can(w, calls[0]) && CanRun(Step(w, calls[0]), calls[1..])
  }

  function Run(w: World, calls: seq<Call>): World
    requires CanRun(w, calls)
    decreases |calls|
  {
    if calls == [] then w else Run(Step(w, calls[0]), calls[1..])
  }

  /** No call of the run writes to the file. */
  ghost predicate NeverWritten(w: World, calls: seq<Call>, ino: nat)
    requires CanRun(w, calls)
    decreases |calls|
  {
    calls != [] ==> WrittenTo(w, calls[0]) != ino && NeverWritten(Step(w, calls[0]), calls[1..], ino)
  }

  /**
   * Ownership over whole runs: every block listed by a live inode is a marked data block, listed once overall; and
   * every descriptor refers to a live file.  The super block is the same, so is the geometry, no name is lost, the
   * directories go on forming a tree, and if no block was marked without being listed, none is at the end.  All blocks
   * of a directory go on naming the same father.
   */
  lemma {:induction false} RunKeeps(w: World, calls: seq<Call>)
    requires Good(w) && CanRun(w, calls)
    ensures Good(Run(w, calls)) && Advances(w.fs, Run(w, calls).fs) && NamesGrow(w.fs, Run(w, calls).fs)
    ensures Tree(w.fs) ==> Tree(Run(w, calls).fs)
    ensures NothingLost(w.fs) ==> NothingLost(Run(w, calls).fs)
    ensures FathersAgree(w.fs) ==> FathersAgree(Run(w, calls).fs)
    decreases |calls|
  {
    hide Inv, FdsGood, Can, Step, LiveDir, MapOf, FilesKept, AllBlocks, Tree, FathersAgree, Accounts, NothingLost;
    if calls == [] {
      StepSelf(w.fs, 0);
    } else {
      StepKeeps(w, calls[0]);
      var mid := Step(w, calls[0]);
      if NothingLost(w.fs) {
        AccountsKeeps(w.fs, mid.fs);
      }
      RunKeeps(mid, calls[1..]);
      NamesGrowTwice(w.fs, mid.fs, Run(mid, calls[1..]).fs);
      hide NamesGrow;
    }
  }

  /** Isolation over whole runs: a file that no call writes to keeps its bytes, whatever else happens. */
  lemma {:induction false} RunIsolates(w: World, calls: seq<Call>, ino: nat)
    requires Good(w) && CanRun(w, calls) && LiveFile(w.fs, ino) && NeverWritten(w, calls, ino)
    ensures LiveFile(Run(w, calls).fs, ino) && Readable(w.fs, ino) && Readable(Run(w, calls).fs, ino)
    ensures Content(Run(w, calls).fs, ino) == Content(w.fs, ino)
    decreases |calls|
  {
    hide Inv, FdsGood, Can, Step, LiveFile, Content, Readable, Advances, NamesGrow, WrittenTo, Tree, FathersAgree,
         Accounts;
    if calls == [] {
      FileReadable(w.fs, ino);
    } else {
      StepKeeps(w, calls[0]);
      RunIsolates(Step(w, calls[0]), calls[1..], ino);
    }
  }

  // ----- what single calls do through a descriptor -----

  /** A write through a descriptor; its bytes arrive exactly if their end fits 32 bits. */
  lemma WriteThrough(w: World, fd: int, bytes: seq<byte>, now: nat)
    requires Good(w) && CanWriteFd(w, fd, bytes, now)
    requires IsOpen(w.files, fd) && bytes != [] && Writeable(w.files[fd].flag)
    ensures var f := w.files[fd];
            var (n, w') := Write(w, fd, bytes, now);
            && n == |bytes| && w'.files == w.files[fd := f.(offset := Wrap(f.offset + |bytes|))]
            && Readable(w.fs, f.inode) && Readable(w'.fs, f.inode)
            && (Overwritten(Content(w.fs, f.inode), Content(w'.fs, f.inode), f.offset, bytes)
                <==> f.offset + |bytes| < 0x1_0000_0000)
            && (f.offset + |bytes| >= 0x1_0000_0000 ==>
                  Overwritten(Content(w.fs, f.inode), Content(w'.fs, f.inode), Wrap(f.offset + |bytes|), []))
            && NamesKept(w.fs, w'.fs) && FilesKept(w.fs, w'.fs, f.inode)
  {
    hide Inv, WriteFile, CanWrite, LiveFile, RoomToWrite, Content, Readable, Overwritten, Changes, Advances, NamesKept,
         FilesKept, Wrap;
    var f := w.files[fd];
    FdGood(w, fd);
    WritePossible(w.fs, f.inode, f.offset, |bytes|, now);
    WriteRefines(w.fs, f.inode, f.offset, bytes, now);
    FileStep(w.fs, WriteFile(w.fs, f.inode, f.offset, bytes, now), f.inode);
  }

  /** A successful read through a descriptor returns the bytes from the offset on, and does not move it. */
  lemma ReadThrough(w: World, fd: int, count: nat, now: nat)
    requires Good(w) && IsOpen(w.files, fd) && count > 0 && CanBeRead(w.files[fd].flag) && Word(now)
    requires w.files[fd].offset + count < 0x1_0000_0000_0000_0000
    ensures CanReadFd(w, fd, count, now) && Readable(w.fs, w.files[fd].inode)
    ensures var f := w.files[fd];
            var (n, bytes, w') := Read(w, fd, count, now);
            var c := Content(w.fs, f.inode);
            && bytes == (if f.offset >= |c| then [] else c[f.offset..Min(f.offset + count, |c|)]) && n == |bytes|
            && w'.files == w.files
  {
    hide Inv, LiveFile, CanRead, ReadFile, Content, Readable, Accessed;
    FdGood(w, fd);
    ReadRefines(w.fs, w.files[fd].inode, w.files[fd].offset, count, now);
  }

  /**
   * Two writes through one descriptor, or one of the joined bytes whose end fits 32 bits: the same file system and the
   * same offset.
   */
  lemma WriteThroughTwice(w: World, fd: int, s: seq<byte>, t: seq<byte>, now: nat)
    requires Good(w) && s != [] && t != [] && CanWriteFd(w, fd, s + t, now)
    requires IsOpen(w.files, fd) && Writeable(w.files[fd].flag) && w.files[fd].offset + |s + t| < 0x1_0000_0000
    ensures CanWriteFd(w, fd, s, now)
    ensures var w1 := Write(w, fd, s, now).1;
            CanWriteFd(w1, fd, t, now) && Write(w1, fd, t, now).1 == Write(w, fd, s + t, now).1
  {
    hide Inv, WriteFile, CanWrite, LiveFile, RoomToWrite, RoomFor;
    var f := w.files[fd];
    FdGood(w, fd);
    WritePossible(w.fs, f.inode, f.offset, |s + t|, now);
    RoomFits(w.fs, f.inode, f.offset, |s + t|, now);
    WriteTwice(w.fs, f.inode, f.offset, s, t, now);
  }

  lemma FdContent(w: World, fd: int)
    requires Good(w) && IsOpen(w.files, fd)
    ensures Readable(w.fs, w.files[fd].inode) && Word(|Content(w.fs, w.files[fd].inode)|)
  {
    hide Inv, LiveFile, Readable, Content;
    FdGood(w, fd);
    ContentBound(w.fs, w.files[fd].inode);
  }

  /**
   * What one descriptor wrote, another one on the same file reads back from the same offset, exactly if the end of the
   * write fits 32 bits.
   */
  lemma ReadBack(w: World, fd: int, rd: int, bytes: seq<byte>, now: nat, later: nat)
    requires Good(w) && CanWriteFd(w, fd, bytes, now) && Word(later)
    requires IsOpen(w.files, fd) && bytes != [] && Writeable(w.files[fd].flag)
    requires IsOpen(w.files, rd) && rd != fd && CanBeRead(w.files[rd].flag)
    requires w.files[rd].inode == w.files[fd].inode && w.files[rd].offset == w.files[fd].offset
    ensures var w1 := Write(w, fd, bytes, now).1;
            && CanReadFd(w1, rd, |bytes|, later)
            && (Read(w1, rd, |bytes|, later).1 == bytes <==> w.files[fd].offset + |bytes| < 0x1_0000_0000)
  {
    hide Good, Write, Read, Content, Readable, NamesKept, FilesKept, CanReadFd, Advances, NamesGrow, Tree, FathersAgree,
         Accounts, Wrap;
    WriteThrough(w, fd, bytes, now);
    WriteCallKeeps(w, fd, bytes, now);
    var w1, ino := Write(w, fd, bytes, now).1, w.files[fd].inode;
    ReadThrough(w1, rd, |bytes|, later);
    FdContent(w1, fd);
  }
}
