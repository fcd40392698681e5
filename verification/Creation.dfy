/** New files and new directories: an inode is allocated, initialised and entered into a directory. */
module Creation {
  import opened Bytes
  import opened Geometry
  import opened Inodes
  import opened DirRecords
  import opened Fs
  import opened Invariant
  import opened DirUpdates
  import opened DirMaps
  import opened FileTheory
  import opened Files
  import A = Allocation
  import B = DirBlock
  import D = Directories
  import G = Growth
  import P = PointerTree

  // ----- an inode is born -----

  /** The allocated inode number becomes an empty regular file. */
  function BornFile(fs: Fs, nid: nat, now: nat): Fs
    requires IsInode(fs, nid) && Word(now)
  {
    PutInode(fs, nid, InitInode(MODE_REG, now))
  }

  /** The inode of a new directory, with its first block. */
  function DirInode(n: nat, now: nat): (i: Inode)
    requires Word(now) && Word(n)
    ensures InodeOk(i)
  {
    var i := InitInode(MODE_DIR, now);
    i.(block := i.block[0 := n])
  }

  /** The first block that the allocator finds for a new directory. */
  function FirstFree(fs: Fs, nid: nat): nat
    requires fs.g.inodesPerGroup > 0 && CanAllocate(fs, Hint(fs, nid), 1)
  {
    FreeFrom(fs, Hint(fs, nid))[0]
  }

  /** The allocated inode number becomes a directory with one block that holds "." and "..". */
  function BornDir(fs: Fs, nid: nat, father: nat, now: nat): Fs
    requires Ok(fs) && IsInode(fs, nid) && Word(now) && CanAllocate(fs, Hint(fs, nid), 1)
  {
    var n := FirstFree(fs, nid);
    FirstFreeWord(fs, nid);
    PutData(PutInode(MarkBlocks(fs, [n]), nid, DirInode(n, now)), n, B.InitBlock(nid, father))
  }

  lemma FirstFreeWord(fs: Fs, nid: nat)
    requires Ok(fs) && CanAllocate(fs, Hint(fs, nid), 1)
    ensures 1 <= FirstFree(fs, nid) <= |fs.blockBits| && Word(FirstFree(fs, nid))
    ensures !fs.blockBits[FirstFree(fs, nid) - 1]
  {
    A.FreeFromBounds(fs, Hint(fs, nid), 0);
    hide FreeFrom;
  }

  lemma DirInodeOne(n: nat, now: nat)
    requires Word(now) && Word(n) && n != 0
    ensures var i := DirInode(n, now);
            DirectOnly(i) && Direct(i) == [n] && IsDir(i)
  {
    var i := DirInode(n, now);
    assert |i.block| == N_BLOCKS && i.block[0] == n && forall k :: 1 <= k < N_BLOCKS ==> i.block[k] == 0;
    G.UpToZeroIs(i.block, 1);
    assert i.block[..1] == [n];
    hide P.UpToZero;
  }

  /** An inode number that was not live gets an inode; nothing that was in use changes. */
  ghost predicate Born(fs: Fs, fs': Fs, nid: nat) {
    && Ok(fs') && A.MetaMarked(fs') && IsInode(fs, nid) && IsInode(fs', nid) && !Live(fs, nid)
       && nid >= FIRST_INO && Grows(fs, fs')
    && fs'.g == fs.g && fs'.super == fs.super
    && |fs.inodeBits| == |fs.inodes| && fs'.inodeBits == fs.inodeBits[nid - 1 := true]
    && |fs'.inodes| == |fs.inodes| && forall a :: IsInode(fs, a) && a != nid ==> GetInode(fs', a) == GetInode(fs, a)
  }

  lemma LiveDataSame(fs: Fs, fs': Fs, a: nat)
    requires Inv(fs) && Live(fs, a) && fs'.data == fs.data
    ensures DataSame(fs, fs', a)
  {
    hide Inv, Direct, Owned;
    G.LiveOwned(fs, a);
    G.OwnedData(fs, List(fs, a));
  }

  /** A freshly allocated inode number was not live, and setting its bit disturbs nothing. */
  lemma AllocatedInode(fs: Fs)
    requires Inv(fs) && Ialloc(fs).0 != 0
    ensures var (nid, fs1) := Ialloc(fs);
            && FIRST_INO <= nid <= |fs.inodes| && !Live(fs, nid) && Ok(fs1) && A.MetaMarked(fs1) && Grows(fs, fs1)
            && fs1 == fs.(inodeBits := fs.inodeBits[nid - 1 := true]) && nid < 0x1_0000_0000
  {
    InvOk(fs);
    hide Inv, NextFreeInode, InodeOk;
  }

  lemma BornFileKeeps(fs: Fs, now: nat)
    requires Inv(fs) && Ialloc(fs).0 != 0 && Word(now)
    ensures var (nid, fs1) := Ialloc(fs);
            && IsInode(fs1, nid)
            && var fs' := BornFile(fs1, nid, now);
               && Inv(fs') && Born(fs, fs', nid) && Changes(fs, fs', nid) && LiveFile(fs', nid) && List(fs', nid) == []
               && GetInode(fs', nid).size == 0 && fs'.data == fs.data
  {
    AllocatedInode(fs);
    var (nid, fs1) := Ialloc(fs);
    var fs' := BornFile(fs1, nid, now);
    hide Inv, Ialloc, InitInode, Direct, DirectOnly, Covers;
    forall a | Live(fs, a) ensures DataSame(fs, fs', a) && Disjoint(List(fs, a), List(fs', nid)) {
      LiveDataSame(fs, fs', a);
    }
    assert Owned(fs', []);
    hide Born, Changes, Owned, Ok, A.MetaMarked;
    ChangeKeeps(fs, fs', nid);
  }

  lemma BornDirList(fs1: Fs, nid: nat, father: nat, now: nat)
    requires Ok(fs1) && A.MetaMarked(fs1) && IsInode(fs1, nid) && Word(now) && CanAllocate(fs1, Hint(fs1, nid), 1)
    ensures var n, fs' := FirstFree(fs1, nid), BornDir(fs1, nid, father, now);
            && 1 <= n <= |fs1.blockBits| && !fs1.blockBits[n - 1] && n in fs1.data
            && IsInode(fs', nid) && DirectOnly(GetInode(fs', nid)) && List(fs', nid) == [n] && IsDir(GetInode(fs', nid))
            && fs'.data == fs1.data[n := B.InitBlock(nid, father)] && fs'.blockBits == Marked(fs1.blockBits, [n])
            && Ok(fs') && A.MetaMarked(fs')
  {
    var n := FirstFree(fs1, nid);
    FirstFreeWord(fs1, nid);
    A.FreeFromMeans(fs1, Hint(fs1, nid));
    assert n in fs1.data by { hide A.Ascending, A.Rank; }
    DirInodeOne(n, now);
    hide FreeFrom, Direct, DirectOnly, B.InitBlock, DirInode, InodeOk;
  }

  /** The block of a new directory is the nearest free one, seen from the group of its own number. */
  lemma BornDirNearest(fs: Fs, nid: nat, father: nat, now: nat)
    requires Ok(fs) && A.MetaMarked(fs) && IsInode(fs, nid) && Word(now) && CanAllocate(fs, Hint(fs, nid), 1)
    ensures var fs' := BornDir(fs, nid, father, now);
            && IsInode(fs', nid) && |List(fs', nid)| == 1
            && A.Nearest(fs.g, fs.blockBits, nid / fs.g.inodesPerGroup, List(fs', nid)[0])
  {
    hide FreeFrom, Direct, A.Nearest, Ok, A.MetaMarked, BornDir, DirectOnly, B.InitBlock;
    A.FirstIsNearest(fs, nid / fs.g.inodesPerGroup);
    BornDirList(fs, nid, father, now);
  }

  lemma BornDirIsBorn(fs: Fs, fs1: Fs, nid: nat, father: nat, now: nat)
    requires FIRST_INO <= nid <= |fs.inodes| && !Live(fs, nid) && Ok(fs1) && A.MetaMarked(fs1)
        && Grows(fs, fs1) && Word(now)
    requires nid <= |fs.inodeBits| == |fs.inodes| && fs1 == fs.(inodeBits := fs.inodeBits[nid - 1 := true])
    requires CanAllocate(fs1, Hint(fs1, nid), 1)
    ensures Born(fs, BornDir(fs1, nid, father, now), nid)
  {
    BornDirList(fs1, nid, father, now);
    hide FreeFrom, Direct, DirectOnly, B.InitBlock, DirInode, InodeOk, Ok, A.MetaMarked;
  }

  /** The records of a new directory's first block. */
  lemma BornBlockGood(fs: Fs, n: nat, nid: nat, father: nat)
    requires nid < 0x1_0000_0000 && father < 0x1_0000_0000 && Live(fs, nid) && Live(fs, father)
    requires n in fs.data && fs.data[n] == B.InitBlock(nid, father)
    ensures DirBlockGood(fs, n, nid) && D.NonDot(RecsOf(fs, n)) == []
    ensures DirBlockOk(fs, n) && |RecsOf(fs, n)| >= 2 && RecsOf(fs, n)[1].inode == father
  {
    hide B.Chain, B.Parse, Shaped, D.NonDot, Live, B.InitBlock, EntriesLive;
    B.InitBlockRecords(nid, father);
    InitShaped(nid, father);
    InitHasNoEntries(nid, father);
    InitLive(fs, nid, father);
  }

  lemma InitLive(fs: Fs, nid: nat, father: nat)
    requires Live(fs, nid) && Live(fs, father)
    ensures EntriesLive(fs, InitRecs(nid, father))
  {
    hide Live;
  }

  lemma OneBlockDir(fs: Fs, n: nat, nid: nat)
    requires DirBlockGood(fs, n, nid) && D.NonDot(RecsOf(fs, n)) == []
    ensures DirGood(fs, nid, [n]) && DirBlocksOk(fs, [n]) && D.Listing(fs, [n], 0) == []
  {
    hide B.Chain, B.Parse, Shaped, D.NonDot, EntriesLive;
    assert D.Listing(fs, [n], 1) == [];
  }

  lemma BornDirChanges(fs: Fs, fs': Fs, nid: nat, n: nat)
    requires Inv(fs) && Born(fs, fs', nid) && List(fs', nid) == [n]
    requires 1 <= n <= |fs.blockBits| && !fs.blockBits[n - 1] && n in fs'.data && fs'.data == fs.data[n := fs'.data[n]]
    ensures Changes(fs, fs', nid)
  {
    assert IsInode(fs', nid);
    hide Inv, Direct, Disjoint, Born;
    forall a | Live(fs, a) ensures DataSame(fs, fs', a) && Disjoint(List(fs, a), List(fs', nid)) {
      G.FreeNotListed(fs, a, n);
      FreeBlockData(fs, fs', n, a);
    }
  }

  /** What a new directory looks like. */
  ghost predicate FreshDir(fs: Fs, nid: nat) {
    LiveDir(fs, nid) && DirBlocksOk(fs, AllBlocks(fs, nid)) && D.Ordinary(fs, nid) == []
  }

  lemma BornDirGood(fs': Fs, nid: nat, n: nat, father: nat)
    requires Live(fs', nid) && Live(fs', father) && nid < 0x1_0000_0000 && father < 0x1_0000_0000
    requires DirectOnly(GetInode(fs', nid)) && List(fs', nid) == [n] && IsDir(GetInode(fs', nid))
    requires n in fs'.data && fs'.data[n] == B.InitBlock(nid, father)
    requires 1 <= n <= |fs'.blockBits| && fs'.blockBits[n - 1]
    ensures NodeGood(fs', nid) && FreshDir(fs', nid)
    ensures DirBlockOk(fs', n) && |RecsOf(fs', n)| >= 2 && RecsOf(fs', n)[1].inode == father
  {
    hide Direct, DirectOnly, B.InitBlock, DirBlockGood, B.Chain, B.Parse, D.NonDot, D.Listing, DirGood;
    BornBlockGood(fs', n, nid, father);
    OneBlockDir(fs', n, nid);
    AllBlocksDirect(fs', nid);
    assert Owned(fs', [n]);
  }

  lemma BornDirKeeps(fs: Fs, father: nat, now: nat)
    requires Inv(fs) && Ialloc(fs).0 != 0 && Word(now) && LiveDir(fs, father)
    requires Ok(Ialloc(fs).1) && CanAllocate(Ialloc(fs).1, Hint(Ialloc(fs).1, Ialloc(fs).0), 1)
    ensures var (nid, fs1) := Ialloc(fs);
            && IsInode(fs1, nid)
            && var fs' := BornDir(fs1, nid, father, now);
               && Inv(fs') && Born(fs, fs', nid) && Changes(fs, fs', nid) && FreshDir(fs', nid)
               && Find(fs', nid, DOT_DOT) == Some(father)
  {
    hide Inv, Ialloc, Direct, DirectOnly, B.InitBlock, BornDir, FirstFree, FreeFrom, Ok, A.MetaMarked, Changes;
    AllocatedInode(fs);
    FatherWord(fs, father);
    var (nid, fs1) := Ialloc(fs);
    var fs' := BornDir(fs1, nid, father, now);
    var n := FirstFree(fs1, nid);
    BornDirList(fs1, nid, father, now);
    BornDirIsBorn(fs, fs1, nid, father, now);
    BornDirChanges(fs, fs', nid, n);
    G.ChangesGrows(fs, fs', nid);
    BornDirGood(fs', nid, n, father);
    ChangeKeeps(fs, fs', nid);
    hide Find, D.Ordinary, AllBlocks, B.Chain, B.Parse;
    DotsFound(fs', nid);
  }

  lemma FatherWord(fs: Fs, a: nat)
    requires Inv(fs) && Live(fs, a)
    ensures a < 0x1_0000_0000
  {
    InvOk(fs);
    hide Inv, InodeOk;
  }

  // ----- what others see -----

  /** All live inodes stay live, and those other than `ino` are undisturbed. */
  ghost predicate KeepsOthers(fs: Fs, fs': Fs, ino: nat) {
    && (forall a :: Live(fs, a) ==> Live(fs', a))
    && (forall a :: Live(fs, a) && a != ino ==> Undisturbed(fs, fs', a))
  }

  /** No inode but perhaps `ino` has come to life. */
  ghost predicate NoneBorn(fs: Fs, fs': Fs, ino: nat) {
    forall a :: Live(fs', a) ==> a == ino || Live(fs, a)
  }

  lemma ChangesKeepsOthers(fs: Fs, fs': Fs, ino: nat)
    requires Changes(fs, fs', ino)
    ensures KeepsOthers(fs, fs', ino) && NoneBorn(fs, fs', ino)
  {
    hide Undisturbed, Disjoint, Direct;
  }

  lemma KeepsOthersTwice(fs: Fs, mid: Fs, fs': Fs, ino: nat, nid: nat)
    requires KeepsOthers(fs, mid, nid) && !Live(fs, nid) && KeepsOthers(mid, fs', ino)
    ensures KeepsOthers(fs, fs', ino)
  {
    hide Undisturbed, Live;
    forall a | Live(fs, a) && a != ino ensures Undisturbed(fs, fs', a) {
      UndisturbedTwice(fs, mid, fs', a);
    }
  }

  lemma UndisturbedMeans(fs: Fs, fs': Fs, a: nat)
    requires Undisturbed(fs, fs', a)
    ensures IsInode(fs, a) && IsInode(fs', a) && GetInode(fs', a) == GetInode(fs, a) && List(fs', a) == List(fs, a)
    ensures forall k :: 0 <= k < |List(fs, a)| ==>
              List(fs, a)[k] in fs'.data && fs'.data[List(fs, a)[k]] == fs.data[List(fs, a)[k]]
  {
    SameList(fs, fs', a);
    hide Direct;
  }

  /** An undisturbed directory has the same map. */
  lemma MapKept(fs: Fs, fs': Fs, a: nat)
    requires Inv(fs) && Inv(fs') && LiveDir(fs, a) && Live(fs', a) && Undisturbed(fs, fs', a)
    ensures LiveDir(fs', a) && DirBlocksOk(fs, AllBlocks(fs, a)) && DirBlocksOk(fs', AllBlocks(fs', a))
    ensures MapOf(fs', a) == MapOf(fs, a)
  {
    hide Inv, Direct, D.UniqueNames, TreesOk, AllBlocks, Undisturbed, D.Listing, D.AsMap, B.Chain;
    UndisturbedMeans(fs, fs', a);
    DirReadable(fs, a);
    DirReadable(fs', a);
    ListingKept(fs, fs', List(fs, a), 0);
  }

  /** The father of an undisturbed directory is the same. */
  lemma FatherKept(fs: Fs, fs': Fs, a: nat)
    requires Inv(fs) && Inv(fs') && LiveDir(fs, a) && Live(fs', a) && Undisturbed(fs, fs', a)
    ensures LiveDir(fs', a) && DirBlocksOk(fs, AllBlocks(fs, a)) && DirBlocksOk(fs', AllBlocks(fs', a))
    ensures Find(fs', a, DOT_DOT) == Find(fs, a, DOT_DOT)
  {
    hide Inv, Direct, TreesOk, AllBlocks, Undisturbed, Find, B.Chain, B.Parse;
    UndisturbedMeans(fs, fs', a);
    DotsFound(fs, a);
    DotsFound(fs', a);
    assert List(fs, a)[0] in List(fs, a);
  }

  /** An undisturbed file has the same bytes. */
  lemma ContentKept(fs: Fs, fs': Fs, a: nat)
    requires Inv(fs) && Inv(fs') && LiveFile(fs, a) && Live(fs', a) && Undisturbed(fs, fs', a)
    ensures LiveFile(fs', a) && Readable(fs, a) && Readable(fs', a) && Content(fs', a) == Content(fs, a)
  {
    SameList(fs, fs', a);
    assert LiveFile(fs', a);
    FileReadable(fs, a);
    FileReadable(fs', a);
    hide Inv, Direct;
  }

  // ----- new files -----

  predicate IsFree(fs: Fs, dir: nat, name: Name)
    requires IsInode(fs, dir) && DirBlocksOk(fs, AllBlocks(fs, dir))
  {
    Find(fs, dir, name).None? && Ialloc(fs).0 != 0
  }

  /** What creating a file in a directory needs: blocks for the new entry, unless the creation fails before that. */
  ghost predicate CanMakeFile(fs: Fs, dir: nat, name: Name, now: nat) {
    && IsInode(fs, dir) && DirBlocksOk(fs, AllBlocks(fs, dir)) && Word(now)
    && (IsFree(fs, dir, name) ==>
          && IsInode(fs, Ialloc(fs).0)
          && CanAddEntry(BornFile(Ialloc(fs).1, Ialloc(fs).0, now), dir, Entry(Ialloc(fs).0, FT_REG_FILE, name)))
  }

  function MakeFile(fs: Fs, dir: nat, name: Name, now: nat): (bool, Fs)
    requires CanMakeFile(fs, dir, name, now)
  {
    if IsFree(fs, dir, name) then
      var (nid, fs1) := Ialloc(fs);
      (true, AddEntry(BornFile(fs1, nid, now), dir, Entry(nid, FT_REG_FILE, name)))
    else (false, fs)
  }

  /** The name maps to the new inode, everything else in the directory and every other inode is as before. */
  ghost predicate Entered(fs: Fs, fs': Fs, dir: nat, name: Name, nid: nat) {
    && Inv(fs') && KeepsOthers(fs, fs', dir) && LiveDir(fs, dir) && LiveDir(fs', dir) && !Live(fs, nid)
    && DirBlocksOk(fs, AllBlocks(fs, dir)) && DirBlocksOk(fs', AllBlocks(fs', dir))
    && name !in MapOf(fs, dir) && MapOf(fs', dir) == MapOf(fs, dir)[name := nid]
    && Find(fs', dir, DOT_DOT) == Find(fs, dir, DOT_DOT) && Live(fs', nid) && NoneBorn(fs, fs', nid) && !IsDot(name)
  }

  lemma FreshName(fs: Fs, born: Fs, dir: nat, name: Name)
    requires Inv(fs) && Inv(born) && LiveDir(fs, dir) && Live(born, dir) && Undisturbed(fs, born, dir)
    requires DirBlocksOk(fs, AllBlocks(fs, dir)) && Find(fs, dir, name) == None
    ensures LiveDir(born, dir) && DirBlocksOk(born, AllBlocks(born, dir)) && Find(born, dir, name) == None
    ensures MapOf(born, dir) == MapOf(fs, dir) && name !in MapOf(fs, dir)
    ensures Find(born, dir, DOT_DOT) == Find(fs, dir, DOT_DOT) && !IsDot(name)
  {
    hide Inv, Find, LiveDir, Live, AllBlocks, MapOf, Undisturbed, B.Chain;
    MapKept(fs, born, dir);
    FatherKept(fs, born, dir);
    FindInMap(fs, dir, name);
    FindInMap(born, dir, name);
  }

  /** Entering a newborn inode under a name that was free. */
  lemma EnterNewborn(fs: Fs, born: Fs, dir: nat, name: Name, nid: nat, ft: byte)
    requires Inv(fs) && LiveDir(fs, dir) && DirBlocksOk(fs, AllBlocks(fs, dir)) && Find(fs, dir, name) == None
    requires Inv(born) && Born(fs, born, nid) && Changes(fs, born, nid) && CanAddEntry(born, dir, Entry(nid, ft, name))
    ensures var fs' := AddEntry(born, dir, Entry(nid, ft, name));
            Entered(fs, fs', dir, name, nid) && Undisturbed(born, fs', nid)
  {
    var e := Entry(nid, ft, name);
    assert !Live(fs, nid) && nid != dir;
    ChangesKeepsOthers(fs, born, nid);
    assert Live(born, dir) && Undisturbed(fs, born, dir) && Live(born, nid);
    hide Inv, Find, AllBlocks, MapOf, Undisturbed, B.Chain, Changes, Born, AddEntry, D.Listing, FirstTaker, CanAddBlock,
         Father, EntryOk;
    FreshName(fs, born, dir, name);
    assert DirBlocksOk(born, AllBlocks(born, dir)) && EntryFits(born, dir, e);
    hide CanAddEntry, EntryFits, Live;
    AddEntryInserts(born, dir, e);
    var fs' := AddEntry(born, dir, e);
    ChangesKeepsOthers(born, fs', dir);
    KeepsOthersTwice(fs, born, fs', dir, nid);
    assert NoneBorn(fs, fs', nid);
  }

  /** `create_file_from_root`, its last step: an empty regular file appears under the name. */
  lemma MakeFileKeeps(fs: Fs, dir: nat, name: Name, now: nat)
    requires Inv(fs) && LiveDir(fs, dir) && CanMakeFile(fs, dir, name, now)
    ensures var (ok, fs') := MakeFile(fs, dir, name, now);
            var nid := Ialloc(fs).0;
            && (!ok ==> fs' == fs)
            && (ok ==>
                  && Entered(fs, fs', dir, name, nid) && LiveFile(fs', nid)
                  && Readable(fs', nid) && Content(fs', nid) == [])
  {
    if IsFree(fs, dir, name) {
      var (nid, fs1) := Ialloc(fs);
      var born := BornFile(fs1, nid, now);
      hide Inv, LiveDir, Find, AllBlocks, MapOf, Undisturbed, B.Chain, Changes, Born, CanAddEntry, AddEntry, Ialloc,
           BornFile, Entered, Live;
      BornFileKeeps(fs, now);
      EnterNewborn(fs, born, dir, name, nid, FT_REG_FILE);
      ContentKept(born, AddEntry(born, dir, Entry(nid, FT_REG_FILE, name)), nid);
    }
  }

  // ----- new directories -----

  /** What looking up a directory with creation needs: a block for the new directory and room for its entry. */
  ghost predicate CanMakeDir(fs: Fs, dir: nat, name: Name, now: nat) {
    && Ok(fs) && IsInode(fs, dir) && DirBlocksOk(fs, AllBlocks(fs, dir)) && Word(now)
    && (IsFree(fs, dir, name) ==>
          && Ok(Ialloc(fs).1) && IsInode(Ialloc(fs).1, Ialloc(fs).0)
          && CanAllocate(Ialloc(fs).1, Hint(Ialloc(fs).1, Ialloc(fs).0), 1)
          && CanAddEntry(BornDir(Ialloc(fs).1, Ialloc(fs).0, dir, now), dir, Entry(Ialloc(fs).0, FT_DIR, name)))
  }

  /** The inode under the name, a new directory if there was none, or nothing; and whether it is new. */
  function FindOrMake(fs: Fs, dir: nat, name: Name, now: nat): (Option<nat>, bool, Fs)
    requires CanMakeDir(fs, dir, name, now)
  {
    if IsFree(fs, dir, name) then
      var (nid, fs1) := Ialloc(fs);
      (Some(nid), true, AddEntry(BornDir(fs1, nid, dir, now), dir, Entry(nid, FT_DIR, name)))
    else (Find(fs, dir, name), false, fs)
  }

  /** `find_dir_from_inode` with creation: an empty directory appears under the name. */
  lemma MakeDirKeeps(fs: Fs, dir: nat, name: Name, now: nat)
    requires Inv(fs) && LiveDir(fs, dir) && CanMakeDir(fs, dir, name, now)
    ensures var (found, made, fs') := FindOrMake(fs, dir, name, now);
            && (!made ==> fs' == fs && found == Find(fs, dir, name))
            && (made ==> found.Some? && Entered(fs, fs', dir, name, found.value)
                         && FreshDir(fs', found.value) && MapOf(fs', found.value) == map[]
                         && Find(fs', found.value, DOT_DOT) == Some(dir))
  {
    if IsFree(fs, dir, name) {
      var (nid, fs1) := Ialloc(fs);
      var born := BornDir(fs1, nid, dir, now);
      var fs' := AddEntry(born, dir, Entry(nid, FT_DIR, name));
      hide Inv, LiveDir, Find, AllBlocks, Undisturbed, B.Chain, Changes, Born, CanAddEntry, AddEntry, Ialloc, BornDir,
           Live, D.Ordinary, D.AsMap, KeepsOthers, NoneBorn, DirBlocksOk;
      BornDirKeeps(fs, dir, now);
      EnterNewborn(fs, born, dir, name, nid, FT_DIR);
      FreshKept(born, fs', nid);
      FatherKept(born, fs', nid);
    }
  }

  lemma FreshKept(born: Fs, fs': Fs, nid: nat)
    requires Inv(born) && Inv(fs') && FreshDir(born, nid) && Live(fs', nid) && Undisturbed(born, fs', nid)
    ensures FreshDir(fs', nid) && MapOf(fs', nid) == map[]
  {
    hide Inv, Direct, D.UniqueNames, TreesOk, AllBlocks, Undisturbed, D.Listing, B.Chain;
    UndisturbedMeans(born, fs', nid);
    DirReadable(born, nid);
    DirReadable(fs', nid);
    ListingKept(born, fs', List(born, nid), 0);
  }

  // ----- what is recorded of a new inode -----

  /** The directory lists the entry, and its inode is as given. */
  ghost predicate Recorded(fs: Fs, dir: nat, e: Entry, i: Inode) {
    && IsInode(fs, dir) && DirBlocksOk(fs, AllBlocks(fs, dir)) && e in D.Ordinary(fs, dir)
    && IsInode(fs, e.inode) && GetInode(fs, e.inode) == i
  }

  lemma NewbornRecorded(fs: Fs, born: Fs, dir: nat, name: Name, nid: nat, ft: byte)
    requires Inv(fs) && LiveDir(fs, dir) && DirBlocksOk(fs, AllBlocks(fs, dir)) && Find(fs, dir, name) == None
    requires Inv(born) && Born(fs, born, nid) && Changes(fs, born, nid) && CanAddEntry(born, dir, Entry(nid, ft, name))
    ensures IsInode(born, nid)
    ensures Recorded(AddEntry(born, dir, Entry(nid, ft, name)), dir, Entry(nid, ft, name), GetInode(born, nid))
  {
    var e := Entry(nid, ft, name);
    assert !Live(fs, nid) && nid != dir;
    ChangesKeepsOthers(fs, born, nid);
    assert Live(born, dir) && Undisturbed(fs, born, dir) && Live(born, nid);
    hide Inv, Find, AllBlocks, MapOf, B.Chain, Changes, Born, AddEntry, D.Listing, FirstTaker, CanAddBlock, Father,
         EntryOk, Entered, Direct;
    FreshName(fs, born, dir, name);
    assert DirBlocksOk(born, AllBlocks(born, dir)) && EntryFits(born, dir, e);
    EnterNewborn(fs, born, dir, name, nid, ft);
    hide CanAddEntry, EntryFits, Live;
    AddedIsListed(born, dir, e);
  }

  /** A new file is recorded as a regular file with mode 0644, in its inode and in its directory. */
  lemma FileRecorded(fs: Fs, dir: nat, name: Name, now: nat)
    requires Inv(fs) && LiveDir(fs, dir) && CanMakeFile(fs, dir, name, now) && MakeFile(fs, dir, name, now).0
    ensures var nid := Ialloc(fs).0;
            Recorded(MakeFile(fs, dir, name, now).1, dir, Entry(nid, 1, name),
                     Inode(0x81A4, 0, 0, now, now, now, 0, 0, 2, 1, 0, 0, seq(15, _ => 0), seq(7, _ => 0)))
  {
    assert IsFree(fs, dir, name);
    var (nid, fs1) := Ialloc(fs);
    var born := BornFile(fs1, nid, now);
    assert GetInode(born, nid) == InitInode(MODE_REG, now);
    hide Inv, LiveDir, Find, AllBlocks, MapOf, Undisturbed, B.Chain, Changes, Born, CanAddEntry, AddEntry, Ialloc,
         BornFile, Recorded, Live;
    BornFileKeeps(fs, now);
    NewbornRecorded(fs, born, dir, name, nid, FT_REG_FILE);
  }

  /** A new directory is recorded as a directory with mode 0755, in its inode and in its father. */
  lemma DirRecorded(fs: Fs, dir: nat, name: Name, now: nat)
    requires Inv(fs) && LiveDir(fs, dir) && CanMakeDir(fs, dir, name, now) && FindOrMake(fs, dir, name, now).1
    ensures exists n: nat ::
              Recorded(FindOrMake(fs, dir, name, now).2, dir, Entry(Ialloc(fs).0, 2, name),
                       Inode(0x41ED, 0, 0, now, now, now, 0, 0, 2, 1, 0, 0, [n] + seq(14, _ => 0), seq(7, _ => 0)))
  {
    assert IsFree(fs, dir, name);
    var (nid, fs1) := Ialloc(fs);
    var n := FirstFree(fs1, nid);
    FirstFreeWord(fs1, nid);
    var born := BornDir(fs1, nid, dir, now);
    assert GetInode(born, nid) == DirInode(n, now);
    assert DirInode(n, now).block == [n] + seq(14, _ => 0);
    hide Inv, LiveDir, Find, AllBlocks, MapOf, Undisturbed, B.Chain, Changes, Born, CanAddEntry, AddEntry, Ialloc,
         BornDir, Recorded, Live, FreeFrom, FirstFree;
    BornDirKeeps(fs, dir, now);
    NewbornRecorded(fs, born, dir, name, nid, FT_DIR);
  }
}
