/** Every block of a directory names the same father, although only the first block's ".." is ever looked at. */
module Fathers {
  import opened Bytes
  import opened Geometry
  import opened Inodes
  import opened DirRecords
  import opened Fs
  import opened Invariant
  import opened DirUpdates
  import opened DirMaps
  import opened Creation
  import A = Allocation
  import B = DirBlock
  import D = Directories
  import G = Growth

  /** The second record of the block leads where ".." leads. */
  ghost predicate NamesFather(fs: Fs, a: nat, b: nat)
    requires IsInode(fs, a)
  {
    && DirBlockOk(fs, b) && DirBlocksOk(fs, AllBlocks(fs, a)) && |RecsOf(fs, b)| >= 2
    && Find(fs, a, DOT_DOT) == Some(RecsOf(fs, b)[1].inode)
  }

  ghost predicate DirFathers(fs: Fs, a: nat)
    requires IsInode(fs, a)
  {
    forall k :: 0 <= k < |List(fs, a)| ==> NamesFather(fs, a, List(fs, a)[k])
  }

  ghost predicate FathersAgree(fs: Fs) {
    forall a :: LiveDir(fs, a) ==> DirFathers(fs, a)
  }

  lemma UndisturbedFathers(fs: Fs, fs': Fs, a: nat)
    requires Inv(fs) && Inv(fs') && LiveDir(fs, a) && Live(fs', a) && Undisturbed(fs, fs', a) && DirFathers(fs, a)
    ensures DirFathers(fs', a)
  {
    hide Inv, Direct, AllBlocks, Find, B.Chain, B.Parse, Undisturbed;
    UndisturbedMeans(fs, fs', a);
    FatherKept(fs, fs', a);
    forall k | 0 <= k < |List(fs', a)| ensures NamesFather(fs', a, List(fs', a)[k]) {
      assert NamesFather(fs, a, List(fs, a)[k]);
    }
  }

  /** Only the directory `ino` need be looked at. */
  lemma OneDirFathers(fs: Fs, fs': Fs, ino: nat)
    requires Inv(fs) && Inv(fs') && FathersAgree(fs) && KeepsOthers(fs, fs', ino) && NoneBorn(fs, fs', ino)
    requires LiveDir(fs', ino) ==> DirFathers(fs', ino)
    ensures FathersAgree(fs')
  {
    hide Inv, DirFathers, Undisturbed;
    forall a | LiveDir(fs', a) ensures DirFathers(fs', a) {
      if a != ino {
        assert Undisturbed(fs, fs', a);
        assert IsDir(GetInode(fs, a)) by { UndisturbedMeans(fs, fs', a); }
        UndisturbedFathers(fs, fs', a);
      }
    }
  }

  // ----- adding an entry -----

  lemma FirstFather(recs: seq<Rec>, ino: nat)
    requires Shaped(recs, ino)
    ensures Father(recs) == Some(recs[1].inode)
  {
    assert DOT != DOT_DOT by { assert |DOT| != |DOT_DOT|; }
    assert Father(recs) == Father(recs[1..]);
  }

  /** The record that is split stays where it is. */
  lemma FirstRecsFather(ino: nat, father: nat, e: Entry)
    ensures var recs := Inserted(InitRecs(ino, father), 1, e);
            |recs| >= 2 && recs[1].inode == father
  {
    hide Need;
  }

  lemma NewBlockFather(fs: Fs, n: nat, ino: nat, father: nat, e: Entry)
    requires ino < 0x1_0000_0000 && father < 0x1_0000_0000 && EntryOk(e)
    requires n in fs.data && fs.data[n] == FirstEntry(ino, father, e)
    ensures DirBlockOk(fs, n) && |RecsOf(fs, n)| >= 2 && RecsOf(fs, n)[1].inode == father
  {
    hide B.Chain, B.Parse, FirstEntry, B.InitBlock, B.AddEntry, Need, Inserted, InitRecs, EntryOk;
    D.FreshBlockTakes(ino, father, e);
    FirstRecsFather(ino, father, e);
  }

  /** Where ".." leads stays, and each block is as before, has kept its second record, or names the father. */
  lemma AllNameFather(fs: Fs, fs': Fs, ino: nat)
    requires IsInode(fs, ino) && IsInode(fs', ino) && DirFathers(fs, ino)
    requires DirBlocksOk(fs, AllBlocks(fs, ino)) && DirBlocksOk(fs', AllBlocks(fs', ino))
    requires Find(fs', ino, DOT_DOT) == Find(fs, ino, DOT_DOT)
    requires forall k :: 0 <= k < |List(fs', ino)| ==> KeepsFather(fs, fs', ino, k)
    ensures DirFathers(fs', ino)
  {
    hide AllBlocks, Find, B.Chain, B.Parse, Direct;
    forall k | 0 <= k < |List(fs', ino)| ensures NamesFather(fs', ino, List(fs', ino)[k]) {
      assert KeepsFather(fs, fs', ino, k);
      if k < |List(fs, ino)| {
        assert NamesFather(fs, ino, List(fs, ino)[k]);
      }
    }
  }

  ghost predicate KeepsFather(fs: Fs, fs': Fs, ino: nat, k: nat)
    requires IsInode(fs, ino) && DirBlocksOk(fs, AllBlocks(fs, ino)) && IsInode(fs', ino) && k < |List(fs', ino)|
  {
    var b := List(fs', ino)[k];
    if k < |List(fs, ino)| then
      && b == List(fs, ino)[k]
      && (SameFather(fs, fs', b) || (b in fs.data && b in fs'.data && fs'.data[b] == fs.data[b]))
    else DirBlockOk(fs', b) && |RecsOf(fs', b)| >= 2 && Find(fs, ino, DOT_DOT) == Some(RecsOf(fs', b)[1].inode)
  }

  lemma InBlockFathers(fs: Fs, ino: nat, e: Entry)
    requires Inv(fs) && LiveDir(fs, ino) && CanAddEntry(fs, ino, e) && Updated(fs, AddEntry(fs, ino, e), ino)
    requires EntryOk(e) && DirBlocksOk(fs, AllBlocks(fs, ino))
    requires FirstTaker(fs, AllBlocks(fs, ino), e, 0) < |AllBlocks(fs, ino)| && DirFathers(fs, ino)
    ensures DirFathers(AddEntry(fs, ino, e), ino)
  {
    hide Inv, B.Chain, B.Parse, AllBlocks, Direct, FirstTaker, Takes, B.AddEntry, EntryOk, AddEntry, DirectOnly, Owned,
         TreesOk, DirBlockGood, D.UniqueNames, D.Listing, CanAddEntry, Find, Changes, DirFathers, SameFather;
    DirFacts(fs, ino);
    var blocks, fs' := List(fs, ino), AddEntry(fs, ino, e);
    var k := FirstTaker(fs, AllBlocks(fs, ino), e, 0);
    AddEntryInBlock(fs, ino, e, k);
    assert DirBlockGood(fs, blocks[k], ino);
    TakerKeepsFather(fs, fs', blocks[k], ino, e);
    FatherStays(fs, ino, e);
    AllInData(fs, blocks);
    hide DirBlockOk, LiveDir;
    AllNameFather(fs, fs', ino);
  }

  lemma AllInData(fs: Fs, blocks: seq<nat>)
    requires Owned(fs, blocks)
    ensures forall k :: 0 <= k < |blocks| ==> blocks[k] in fs.data
  {
  }

  lemma InNewBlockFathers(fs: Fs, ino: nat, e: Entry)
    requires Inv(fs) && LiveDir(fs, ino) && CanAddEntry(fs, ino, e) && Updated(fs, AddEntry(fs, ino, e), ino)
    requires EntryOk(e) && DirBlocksOk(fs, AllBlocks(fs, ino))
    requires FirstTaker(fs, AllBlocks(fs, ino), e, 0) == |AllBlocks(fs, ino)| && DirFathers(fs, ino)
    ensures DirFathers(AddEntry(fs, ino, e), ino)
  {
    hide Inv, B.Chain, B.Parse, AllBlocks, Direct, FirstTaker, EntryOk, AddEntry, DirectOnly, Owned, TreesOk, DirGood,
         CanAddEntry, Find, Changes, FirstEntry, Ok, A.MetaMarked, DirFathers, SameFather, Father;
    var n, father := NewBlockReached(fs, ino, e);
    NewBlockInputs(fs, ino);
    FirstBlockNames(fs, ino);
    var fs' := AddEntry(fs, ino, e);
    NewBlockFather(fs', n, ino, father, e);
    FatherStays(fs, ino, e);
    hide LiveDir, RecsOf, DirBlockOk;
    AllNameFather(fs, fs', ino);
  }

  /** What the code reads from the first block is where ".." leads. */
  lemma FirstBlockNames(fs: Fs, ino: nat)
    requires Inv(fs) && LiveDir(fs, ino)
    ensures |GetInode(fs, ino).block| > 0 && DirBlockOk(fs, GetInode(fs, ino).block[0])
    ensures DirBlocksOk(fs, AllBlocks(fs, ino))
    ensures Find(fs, ino, DOT_DOT) == Father(RecsOf(fs, GetInode(fs, ino).block[0]))
  {
    FirstBlock(fs, ino);
    DirFacts(fs, ino);
    assert GetInode(fs, ino).block[0] == List(fs, ino)[0];
    assert DirBlockGood(fs, List(fs, ino)[0], ino);
    hide Inv, B.Chain, B.Parse, AllBlocks, Direct, Find, DirGood, Shaped, Father;
    FirstFather(RecsOf(fs, List(fs, ino)[0]), ino);
    DotsFound(fs, ino);
  }

  lemma AddEntryFathers(fs: Fs, ino: nat, e: Entry)
    requires Inv(fs) && LiveDir(fs, ino) && CanAddEntry(fs, ino, e) && Updated(fs, AddEntry(fs, ino, e), ino)
    requires FathersAgree(fs)
    ensures FathersAgree(AddEntry(fs, ino, e))
  {
    assert EntryOk(e) && DirBlocksOk(fs, AllBlocks(fs, ino));
    hide Inv, AllBlocks, FirstTaker, AddEntry, CanAddEntry, DirFathers, Changes, KeepsOthers, NoneBorn;
    if FirstTaker(fs, AllBlocks(fs, ino), e, 0) < |AllBlocks(fs, ino)| {
      InBlockFathers(fs, ino, e);
    } else {
      InNewBlockFathers(fs, ino, e);
    }
    ChangesKeepsOthers(fs, AddEntry(fs, ino, e), ino);
    OneDirFathers(fs, AddEntry(fs, ino, e), ino);
  }

  // ----- creation -----

  /** Entering a newborn inode under a name that was free. */
  lemma EnterFathers(fs: Fs, born: Fs, dir: nat, name: Name, nid: nat, ft: byte)
    requires Inv(fs) && LiveDir(fs, dir) && DirBlocksOk(fs, AllBlocks(fs, dir)) && Find(fs, dir, name) == None
    requires Inv(born) && Born(fs, born, nid) && Changes(fs, born, nid) && CanAddEntry(born, dir, Entry(nid, ft, name))
    requires FathersAgree(born)
    ensures FathersAgree(AddEntry(born, dir, Entry(nid, ft, name)))
  {
    var e := Entry(nid, ft, name);
    assert !Live(fs, nid) && nid != dir;
    ChangesKeepsOthers(fs, born, nid);
    assert Live(born, dir) && Undisturbed(fs, born, dir) && Live(born, nid);
    hide Inv, Find, AllBlocks, MapOf, Undisturbed, B.Chain, Changes, Born, AddEntry, D.Listing, FirstTaker, CanAddBlock,
         Father, EntryOk, FathersAgree;
    FreshName(fs, born, dir, name);
    assert DirBlocksOk(born, AllBlocks(born, dir)) && EntryFits(born, dir, e);
    hide CanAddEntry, EntryFits, Live;
    AddEntryInserts(born, dir, e);
    AddEntryFathers(born, dir, e);
  }

  lemma MakeFileFathers(fs: Fs, dir: nat, name: Name, now: nat)
    requires Inv(fs) && LiveDir(fs, dir) && CanMakeFile(fs, dir, name, now) && FathersAgree(fs)
    ensures FathersAgree(MakeFile(fs, dir, name, now).1)
  {
    hide Inv, AllBlocks, Find, CanAddEntry, AddEntry, Ialloc, BornFile, Changes, Born, DirBlocksOk, KeepsOthers,
         NoneBorn, FathersAgree, DirFathers;
    if IsFree(fs, dir, name) {
      BornFileKeeps(fs, now);
      var nid := Ialloc(fs).0;
      var born := BornFile(Ialloc(fs).1, nid, now);
      ChangesKeepsOthers(fs, born, nid);
      OneDirFathers(fs, born, nid);
      EnterFathers(fs, born, dir, name, nid, FT_REG_FILE);
    }
  }

  lemma BornDirFathers(fs: Fs, father: nat, now: nat)
    requires Inv(fs) && Ialloc(fs).0 != 0 && Word(now) && LiveDir(fs, father)
    requires Ok(Ialloc(fs).1) && CanAllocate(Ialloc(fs).1, Hint(Ialloc(fs).1, Ialloc(fs).0), 1)
    ensures var (nid, fs1) := Ialloc(fs);
            IsInode(fs1, nid) && DirFathers(BornDir(fs1, nid, father, now), nid)
  {
    hide Inv, Ialloc, Direct, DirectOnly, B.InitBlock, BornDir, FirstFree, FreeFrom, Ok, A.MetaMarked, Changes, Find,
         AllBlocks, B.Chain, B.Parse, D.Ordinary;
    AllocatedInode(fs);
    FatherWord(fs, father);
    BornDirKeeps(fs, father, now);
    var (nid, fs1) := Ialloc(fs);
    BornDirList(fs1, nid, father, now);
    B.InitBlockRecords(nid, father);
  }

  lemma MakeDirFathers(fs: Fs, dir: nat, name: Name, now: nat)
    requires Inv(fs) && LiveDir(fs, dir) && CanMakeDir(fs, dir, name, now) && FathersAgree(fs)
    ensures FathersAgree(FindOrMake(fs, dir, name, now).2)
  {
    hide Inv, AllBlocks, Find, CanAddEntry, AddEntry, Ialloc, BornDir, Changes, Born, DirBlocksOk, KeepsOthers,
         NoneBorn, FathersAgree, DirFathers, FreshDir, Ok, CanAllocate, Hint;
    if IsFree(fs, dir, name) {
      BornDirKeeps(fs, dir, now);
      var nid := Ialloc(fs).0;
      var born := BornDir(Ialloc(fs).1, nid, dir, now);
      BornDirFathers(fs, dir, now);
      ChangesKeepsOthers(fs, born, nid);
      OneDirFathers(fs, born, nid);
      EnterFathers(fs, born, dir, name, nid, FT_DIR);
    }
  }

  /** A change of a file and its blocks. */
  lemma FileChangeFathers(fs: Fs, fs': Fs, ino: nat)
    requires Inv(fs) && Inv(fs') && FathersAgree(fs) && Changes(fs, fs', ino) && !LiveDir(fs', ino)
    ensures FathersAgree(fs')
  {
    hide Inv, Changes, FathersAgree, KeepsOthers, NoneBorn, DirFathers;
    ChangesKeepsOthers(fs, fs', ino);
    OneDirFathers(fs, fs', ino);
  }

  /** A file system whose only directory has one block. */
  lemma RootFathers(fs: Fs, n: nat)
    requires Inv(fs) && (forall a :: Live(fs, a) ==> a == ROOT_INODE) && List(fs, ROOT_INODE) == [n]
    ensures FathersAgree(fs)
  {
    assert LiveDir(fs, ROOT_INODE);
    hide Inv, AllBlocks, Find, Direct, B.Chain, B.Parse, Live;
    DotsFound(fs, ROOT_INODE);
  }
}
