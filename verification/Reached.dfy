/**
 * Two states that the calls of the interface reach from a freshly formatted disk of zeros: one in which the bytes of a
 * write are lost, and one in which the release of an inode breaks the ownership of blocks.
 */
module Reached {
  import opened Bytes
  import opened Geometry
  import opened Inodes
  import opened DirRecords
  import opened Fs
  import opened Image
  import opened Invariant
  import opened DirUpdates
  import opened DirMaps
  import opened FileData
  import opened Files
  import opened FileTheory
  import opened Creation
  import opened World
  import opened Runs
  import opened Paths
  import A = Allocation
  import B = DirBlock
  import D = Directories
  import M = Formatting
  import Q = Release
  import S = Sessions
  import X = Ext2m

  // ----- a small file system -----

  /** The directory is its own father, all in block `n`, and its `j`-th record has `room` bytes to spare. */
  ghost predicate SmallRoot(fs: Fs, n: nat, j: nat, room: nat) {
    && LiveDir(fs, ROOT_INODE) && List(fs, ROOT_INODE) == [n] && DirBlockOk(fs, n)
    && 1 <= j < |RecsOf(fs, n)| && RecsOf(fs, n)[1].inode == ROOT_INODE && Slack(RecsOf(fs, n)[j]) >= room
  }

  /** There is more than one group, the first ordinary inodes belong to the first one, and block `b` of it is free. */
  ghost predicate HasFree(fs: Fs, b: nat) {
    && fs.g.Ok() && |fs.blockBits| == fs.g.Blocks() && fs.g.groups >= 2 && fs.g.inodesPerGroup > FIRST_INO + 1
    && A.IsFree(fs.g, fs.blockBits, b) && A.GroupOf(fs.g, b) == 0
  }

  lemma SmallHint(ino: nat, perGroup: nat)
    requires ino < perGroup
    ensures ino / perGroup == 0
  {
  }

  lemma HasFreeAllocates(fs: Fs, b: nat, ino: nat)
    requires HasFree(fs, b) && ino <= FIRST_INO + 1
    ensures Hint(fs, ino) == 0 && CanAllocate(fs, Hint(fs, ino), 1)
  {
    hide FreeFrom;
    assert fs.g.blocksPerGroup > 0 && b >= 1;
    hide Geo.Ok, A.IsFree, A.GroupOf;
    assert A.Scans(fs.g, 0, b);
    A.CanAllocateOne(fs, 0);
    hide CanAllocate, A.Scans;
    SmallHint(ino, fs.g.inodesPerGroup);
  }

  // ----- one more file in the root -----

  /** Splitting a record for a name of one byte leaves the room but for twelve bytes. */
  lemma RoomLeft(recs: seq<Rec>, e: Entry, j: nat, room: nat) returns (j': nat)
    requires 1 <= j < |recs| && Slack(recs[j]) >= room >= 12 && |e.name| == 1 && Slack(recs[0]) < 12
    ensures var k := FirstFit(recs, Need(|e.name|));
            && 1 <= k < |recs| && Slack(recs[k]) >= 0
            && var recs' := Inserted(recs, k, e);
               1 <= j' < |recs'| && Slack(recs'[j']) >= room - 12 && recs'[1].inode == recs[1].inode
  {
    var k := FirstFit(recs, Need(|e.name|));
    assert Need(1) == 12;
    InsertedEntries(recs, k, e);
    var recs' := Inserted(recs, k, e);
    assert ToEntry(recs'[1]) == ToEntry(recs[1]);
    j' := j + 1;
    if k < j {
      assert recs'[j'] == recs[j];
    } else {
      assert recs'[j'] == Rec(e.inode, Slack(recs[k]), e.fileType, e.name);
    }
  }

  lemma DotIsTight(fs: Fs, n: nat)
    requires Inv(fs) && LiveDir(fs, ROOT_INODE) && List(fs, ROOT_INODE) == [n] && DirBlockOk(fs, n)
    ensures |RecsOf(fs, n)| > 0 && Slack(RecsOf(fs, n)[0]) < 12
  {
    hide Inv, Direct, B.Chain, B.Parse, DirectOnly, TreesOk, Owned, EntriesLive;
    DirFacts(fs, ROOT_INODE);
    assert DirBlockGood(fs, List(fs, ROOT_INODE)[0], ROOT_INODE);
  }

  /** An entry with a name of one byte goes into the root's only block. */
  lemma EntersRoot(born: Fs, n: nat, j: nat, room: nat, e: Entry) returns (j': nat)
    requires Inv(born) && SmallRoot(born, n, j, room) && room >= 12 && |e.name| == 1 && EntryOk(e)
    ensures CanAddEntry(born, ROOT_INODE, e)
    ensures var fs' := AddEntry(born, ROOT_INODE, e);
            && fs' == PutData(born, n, B.AddEntry(born.data[n], e).1) && DirBlockOk(fs', n)
            && 1 <= j' < |RecsOf(fs', n)| && RecsOf(fs', n)[1].inode == ROOT_INODE
            && Slack(RecsOf(fs', n)[j']) >= room - 12
  {
    hide Inv, B.Chain, B.Parse, AllBlocks, TreesOk, DirGood, Direct, DirectOnly, Owned, Slack;
    var recs := RecsOf(born, n);
    DotIsTight(born, n);
    DirReadable(born, ROOT_INODE);
    j' := RoomLeft(recs, e, j, room);
    B.AddEntryRecords(born.data[n], e);
    assert Takes(born, n, e);
    assert FirstTaker(born, AllBlocks(born, ROOT_INODE), e, 0) == 0;
    hide Takes, B.AddEntry, Inserted, FirstFit;
    RoomIsEnough(born, ROOT_INODE, e);
    AddEntryInBlock(born, ROOT_INODE, e, 0);
  }

  /** The same path, of one name, in the root. */
  lemma CreateIsMake(fs: Fs, name: Name, now: nat)
    requires LiveDir(fs, ROOT_INODE) && TreesOk(fs, GetInode(fs, ROOT_INODE)) && |name| <= NAME_LEN
    requires CanMakeFile(fs, ROOT_INODE, name, now)
    ensures CanCreate(fs, [name], now)
    ensures Create(fs, [name], now)
            == (if MakeFile(fs, ROOT_INODE, name, now).0 then 0 else FAILED, MakeFile(fs, ROOT_INODE, name, now).1)
  {
    hide MakeFile, CanMakeFile, TreesOk;
    var path := [name];
    assert path[..|path| - 1] == [] && IsInode(fs, ROOT_INODE);
    hide LiveDir;
  }

  /** Only the bit and the inode of the new file differ. */
  lemma BornSmall(fs: Fs, n: nat, b: nat, j: nat, room: nat, now: nat)
    requires Inv(fs) && SmallRoot(fs, n, j, room) && HasFree(fs, b) && Ialloc(fs).0 != 0 && Word(now)
    ensures var (nid, fs1) := Ialloc(fs);
            && IsInode(fs1, nid) && nid < 0x1_0000_0000 && 1 <= nid <= |fs.inodeBits|
            && var born := BornFile(fs1, nid, now);
               && Inv(born) && SmallRoot(born, n, j, room) && HasFree(born, b) && LiveFile(born, nid)
               && List(born, nid) == [] && born.inodeBits == fs.inodeBits[nid - 1 := true]
  {
    hide Inv, Direct, B.Chain, B.Parse, InitInode, Slack, A.IsFree, A.GroupOf, Geo.Ok, NextFreeInode;
    AllocatedInode(fs);
    BornFileKeeps(fs, now);
    var (nid, fs1) := Ialloc(fs);
    var born := BornFile(fs1, nid, now);
    assert Undisturbed(fs, born, ROOT_INODE);
    assert List(born, ROOT_INODE)[0] == n;
  }

  /** Creating a file with a name of one byte in a small root. */
  lemma CreateInRoot(fs: Fs, n: nat, b: nat, j: nat, room: nat, name: Name, now: nat) returns (j': nat)
    requires Inv(fs) && SmallRoot(fs, n, j, room) && HasFree(fs, b) && Ialloc(fs).0 != 0 && Word(now)
    requires room >= 12 && |name| == 1 && NameOk(name) && !IsDot(name)
    requires DirBlocksOk(fs, AllBlocks(fs, ROOT_INODE)) && name !in MapOf(fs, ROOT_INODE)
    ensures CanCreate(fs, [name], now)
    ensures var nid, fs' := Ialloc(fs).0, Create(fs, [name], now).1;
            && Create(fs, [name], now).0 == 0 && SmallRoot(fs', n, j', room - 12) && HasFree(fs', b)
            && 1 <= nid <= |fs.inodeBits| && fs'.inodeBits == fs.inodeBits[nid - 1 := true]
            && LiveFile(fs', nid) && List(fs', nid) == [] && Entered(fs, fs', ROOT_INODE, name, nid)
  {
    hide Inv, Direct, B.Chain, B.Parse, InitInode, Slack, A.IsFree, A.GroupOf, Geo.Ok, Ialloc, AllBlocks, MapOf, Find,
         BornFile, CanAddEntry, AddEntry, B.AddEntry, TreesOk, D.UniqueNames, D.Ordinary;
    assert IsInode(fs, ROOT_INODE);
    hide Live;
    var (nid, fs1) := Ialloc(fs);
    BornSmall(fs, n, b, j, room, now);
    FindInMap(fs, ROOT_INODE, name);
    DirReadable(fs, ROOT_INODE);
    var born, e := BornFile(fs1, nid, now), Entry(nid, FT_REG_FILE, name);
    j' := EntersRoot(born, n, j, room, e);
    MakeFileKeeps(fs, ROOT_INODE, name, now);
    hide Entered;
    CreateIsMake(fs, name, now);
  }

  // ----- a formatted disk is a small file system -----

  /** A freshly formatted file system. */
  ghost predicate Empty(fs: Fs, n: nat, b: nat) {
    && Inv(fs) && SmallRoot(fs, n, 1, 1000) && HasFree(fs, b) && |fs.inodeBits| > FIRST_INO + 1
    && (forall j :: 0 <= j < |fs.inodeBits| && j != M.ROOT_BIT ==> !fs.inodeBits[j])
    && DirBlocksOk(fs, AllBlocks(fs, ROOT_INODE)) && MapOf(fs, ROOT_INODE) == map[]
  }

  lemma FormattedFree(g: Geo, bits: seq<bool>, n: nat, b: nat, fs: Fs)
    requires g.Ok() && |bits| == g.Blocks() && fs.g == g && fs.blockBits == Marked(M.MetaBits(g, bits), [n])
    requires g.groups >= 2 && g.inodesPerGroup > FIRST_INO + 1
    requires g.MetaBlocks() < b <= g.blocksPerGroup && b != n && b <= g.Blocks() && !bits[b - 1]
    ensures HasFree(fs, b)
  {
    S.FirstData(g, b);
    hide IsData, A.GroupOf, Geo.Ok;
  }

  lemma RootSmall(fs: Fs, n: nat)
    requires M.RootMade(fs, n)
    ensures SmallRoot(fs, n, 1, 1000)
  {
    hide B.Chain, B.Parse, B.InitBlock, Direct, DirectOnly, Ok, A.MetaMarked;
    B.InitBlockRecords(ROOT_INODE, ROOT_INODE);
    assert Need(2) == 12;
  }

  /** Formatting a disk of zeros. */
  lemma FormattedEmpty(g: Geo, bits: seq<bool>, super: Block, now: nat) returns (n: nat, b: nat)
    requires M.CanFormat(g, bits, super) && Word(now) && g.groups >= 2 && g.inodesPerGroup > FIRST_INO + 1
    requires g.MetaBlocks() + 2 <= g.blocksPerGroup <= g.Blocks()
    requires !bits[g.MetaBlocks()] && !bits[g.MetaBlocks() + 1]
    ensures Empty(M.Formatted(g, bits, super, now), n, b)
  {
    hide M.Formatted, Inv, SmallRoot, HasFree, AllBlocks, MapOf, M.MetaBits, Marked, FreeFrom;
    M.FormattedGood(g, bits, super, now);
    n := M.FormattedRoot(g, bits, super, now);
    var fs := M.Formatted(g, bits, super, now);
    RootSmall(fs, n);
    b := if n == g.MetaBlocks() + 1 then g.MetaBlocks() + 2 else g.MetaBlocks() + 1;
    FormattedFree(g, bits, n, b, fs);
    InvOk(fs);
    ManyInodes(g);
  }

  lemma ManyInodes(g: Geo)
    requires g.Ok() && g.inodesPerGroup > FIRST_INO + 1
    ensures g.Inodes() > FIRST_INO + 1
  {
  }

  /** The first session on a disk of zeros with at least two groups of the usual size. */
  ghost predicate ZeroDisk(img: seq<Block>, totalBlocks: nat, now: nat, rest: seq<byte>) {
    && |img| == totalBlocks && HasRoom(totalBlocks) && Word(now) && |rest| == BLOCK_SIZE - 92
    && GroupsOn(totalBlocks) >= 2 && BlockGroupCalculation(totalBlocks).inodesPerGroup > FIRST_INO + 1
    && forall b :: 0 <= b < |img| ==> img[b] == ZeroBlock()
  }

  lemma StartEmpty(img: seq<Block>, totalBlocks: nat, now: nat, rest: seq<byte>) returns (n: nat, b: nat)
    requires ZeroDisk(img, totalBlocks, now, rest)
    ensures X.CanFormat(img, totalBlocks, now, rest) && Empty(S.Start(img, totalBlocks, now, rest).fs, n, b)
  {
    S.ZeroDiskFormats(img, totalBlocks, now, rest);
    LayoutSound(totalBlocks);
    var l := BlockGroupCalculation(totalBlocks);
    var g := GeoOf(l);
    assert g.groups == GroupsOn(totalBlocks) && g.DataBlocks() == l.dataBlocks;
    hide Abs, BlockGroupCalculation, HasRoom, M.CanFormat, Empty;
    GroupWithin(g, 0);
    S.ZeroBitAt(g, img, g.MetaBlocks());
    S.ZeroBitAt(g, img, g.MetaBlocks() + 1);
    n, b := FormattedEmpty(g, Abs(g, img).blockBits, X.S.SuperBlockOf(g, now, rest), now);
  }

  // ----- two files, one of them open -----

  const A_NAME: Name := [97]
  const B_NAME: Name := [98]
  const WRITE_ONLY: int := 1

  /** Creates two files and opens the first for writing. */
  function Setup(now: nat): seq<Call> {
    [Call(OpCreate([A_NAME]), now), Call(OpCreate([B_NAME]), now), Call(OpOpen([A_NAME], WRITE_ONLY), now)]
  }

  /** Inodes 11 and 12 are files in the root, the first is empty and there is room for its blocks. */
  ghost predicate TwoFiles(fs: Fs, n: nat, b: nat, j: nat) {
    && Inv(fs) && SmallRoot(fs, n, j, 0) && HasFree(fs, b)
    && LiveFile(fs, FIRST_INO) && List(fs, FIRST_INO) == [] && LiveFile(fs, FIRST_INO + 1)
    && DirBlocksOk(fs, AllBlocks(fs, ROOT_INODE))
    && MapOf(fs, ROOT_INODE) == map[A_NAME := FIRST_INO, B_NAME := FIRST_INO + 1]
  }

  lemma FirstInodes(fs: Fs, fs': Fs)
    requires |fs.inodeBits| > FIRST_INO + 1
    requires forall j :: 0 <= j < |fs.inodeBits| && j != M.ROOT_BIT ==> !fs.inodeBits[j]
    ensures Ialloc(fs).0 == FIRST_INO
    ensures fs'.inodeBits == fs.inodeBits[FIRST_INO - 1 := true] ==> Ialloc(fs').0 == FIRST_INO + 1
  {
    assert !fs.inodeBits[FIRST_INO - 1] && !fs.inodeBits[FIRST_INO];
    if fs'.inodeBits == fs.inodeBits[FIRST_INO - 1 := true] {
      assert fs'.inodeBits[FIRST_INO - 1] && !fs'.inodeBits[FIRST_INO];
    }
  }

  lemma CreateBoth(fs: Fs, n: nat, b: nat, now: nat) returns (j: nat)
    requires Empty(fs, n, b) && Word(now)
    ensures CanCreate(fs, [A_NAME], now) && Create(fs, [A_NAME], now).0 == 0
    ensures var fs1 := Create(fs, [A_NAME], now).1;
            && Inv(fs1) && CanCreate(fs1, [B_NAME], now) && Create(fs1, [B_NAME], now).0 == 0
            && TwoFiles(Create(fs1, [B_NAME], now).1, n, b, j)
  {
    assert A_NAME[0] == 97 && B_NAME[0] == 98 && |DOT_DOT| == 2 && DOT[0] == 46;
    hide Inv, SmallRoot, HasFree, AllBlocks, MapOf, Create, CanCreate, LiveFile, Ialloc, Undisturbed, Direct, Live,
         LiveDir;
    var j1 := CreateInRoot(fs, n, b, 1, 1000, A_NAME, now);
    var fs1 := Create(fs, [A_NAME], now).1;
    FirstInodes(fs, fs1);
    j := CreateInRoot(fs1, n, b, j1, 988, B_NAME, now);
    var fs2 := Create(fs1, [B_NAME], now).1;
    FileStays(fs1, fs2, FIRST_INO);
    MoreRoom(fs2, n, j, 976);
    assert MapOf(fs2, ROOT_INODE) == map[A_NAME := FIRST_INO, B_NAME := FIRST_INO + 1];
  }

  lemma MoreRoom(fs: Fs, n: nat, j: nat, room: nat)
    requires SmallRoot(fs, n, j, room)
    ensures SmallRoot(fs, n, j, 0)
  {
    hide B.Chain, B.Parse, Direct;
  }

  lemma FileStays(fs: Fs, fs': Fs, a: nat)
    requires KeepsOthers(fs, fs', ROOT_INODE) && LiveFile(fs, a) && a != ROOT_INODE
    ensures LiveFile(fs', a) && List(fs', a) == List(fs, a)
  {
    hide Direct;
    UndisturbedMeans(fs, fs', a);
  }

  lemma RunFirst(w: World, c: Call, rest: seq<Call>)
    requires Can(w, c) && CanRun(Step(w, c), rest)
    ensures CanRun(w, [c] + rest) && Run(w, [c] + rest) == Run(Step(w, c), rest)
  {
    hide Can, Step;
    assert ([c] + rest)[1..] == rest;
  }

  lemma RunThree(w: World, c: Call, d: Call, e: Call)
    requires Can(w, c) && Can(Step(w, c), d) && Can(Step(Step(w, c), d), e)
    ensures CanRun(w, [c, d, e]) && Run(w, [c, d, e]) == Step(Step(Step(w, c), d), e)
  {
    hide Can, Step;
    var w1, w2 := Step(w, c), Step(Step(w, c), d);
    RunFirst(w2, e, []);
    RunFirst(w1, d, [e]);
    RunFirst(w, c, [d, e]);
    assert [e] + [] == [e] && [d] + [e] == [d, e] && [c] + [d, e] == [c, d, e];
  }

  /** The lookup of the first file. */
  lemma WalkToFile(fs: Fs, name: Name)
    requires Inv(fs) && LiveDir(fs, ROOT_INODE) && DirBlocksOk(fs, AllBlocks(fs, ROOT_INODE)) && !IsDot(name)
    requires name in MapOf(fs, ROOT_INODE) && IsInode(fs, MapOf(fs, ROOT_INODE)[name])
    ensures Walkable(fs, ROOT_INODE, [name])
    ensures Walk(fs, ROOT_INODE, [name]) == Some(MapOf(fs, ROOT_INODE)[name])
  {
    hide Inv, AllBlocks, MapOf, Find, TreesOk;
    assert IsInode(fs, ROOT_INODE);
    hide LiveDir;
    FindInMap(fs, ROOT_INODE, name);
    DirReadable(fs, ROOT_INODE);
    WalkOneMore(fs, ROOT_INODE, [], name);
    assert [] + [name] == [name];
  }

  lemma OpensFirst(w: World, n: nat, b: nat, j: nat, now: nat)
    requires TwoFiles(w.fs, n, b, j) && w.files == S.TABLE
    ensures CanOpen(w, [A_NAME], WRITE_ONLY, now)
    ensures Open(w, [A_NAME], WRITE_ONLY, now).1 == World(w.fs, S.TABLE + [Fd(FIRST_INO, 0, WRITE_ONLY)])
  {
    assert A_NAME[0] == 97 && |DOT_DOT| == 2 && DOT[0] == 46;
    hide Inv, AllBlocks, MapOf, HasFree, Walk, Walkable, Direct, B.Chain, B.Parse;
    WalkToFile(w.fs, A_NAME);
    assert FreeFd(w.files, FIRST_FD) == FIRST_FD;
  }

  lemma SetupSteps(w: World, n: nat, b: nat, now: nat) returns (j: nat)
    requires Good(w) && Empty(w.fs, n, b) && w.files == S.TABLE && Word(now)
    ensures CanRun(w, Setup(now))
    ensures Good(Run(w, Setup(now))) && TwoFiles(Run(w, Setup(now)).fs, n, b, j)
    ensures Run(w, Setup(now)).files == S.TABLE + [Fd(FIRST_INO, 0, WRITE_ONLY)]
  {
    hide Empty, Good, TwoFiles, Create, CanCreate, Open, CanOpen, CanRun, Run, Advances, NamesGrow;
    j := CreateBoth(w.fs, n, b, now);
    var calls := Setup(now);
    var w2 := Step(Step(w, calls[0]), calls[1]);
    OpensFirst(w2, n, b, j, now);
    RunThree(w, calls[0], calls[1], calls[2]);
    RunKeeps(w, calls);
  }

  /** The set-up runs through and leaves two files, one of them open. */
  lemma SetupRuns(img: seq<Block>, totalBlocks: nat, now: nat, rest: seq<byte>) returns (n: nat, b: nat, j: nat)
    requires ZeroDisk(img, totalBlocks, now, rest)
    ensures X.CanFormat(img, totalBlocks, now, rest) && CanRun(S.Start(img, totalBlocks, now, rest), Setup(now))
    ensures var w := Run(S.Start(img, totalBlocks, now, rest), Setup(now));
            Good(w) && TwoFiles(w.fs, n, b, j) && w.files == S.TABLE + [Fd(FIRST_INO, 0, WRITE_ONLY)]
  {
    hide X.CanFormat, X.AfterFormat, Empty, Good, TwoFiles, CanRun, Run, Setup;
    n, b := StartEmpty(img, totalBlocks, now, rest);
    S.StartGood(img, totalBlocks, now, rest);
    j := SetupSteps(S.Start(img, totalBlocks, now, rest), n, b, now);
  }

  // ----- a lost write -----

  lemma FirstBlockFits(fs: Fs, n: nat, b: nat, j: nat, end: nat)
    requires TwoFiles(fs, n, b, j) && end < BLOCK_SIZE
    ensures CanGrow(fs, FIRST_INO, Shortage(fs, FIRST_INO, end))
  {
    assert IsInode(fs, FIRST_INO) && fs.g.Ok();
    hide Inv, AllBlocks, MapOf, Direct, CanAllocate, SmallRoot, Geo.Ok;
    FileFacts(fs, FIRST_INO);
    HasFreeAllocates(fs, b, FIRST_INO);
  }

  /**
   * After the set-up a seek to -1 and a write of five bytes reports five bytes as written, but the file is only four
   * bytes long.
   */
  lemma LosesBytes(img: seq<Block>, totalBlocks: nat, now: nat, rest: seq<byte>, bytes: seq<byte>)
    requires ZeroDisk(img, totalBlocks, now, rest) && |bytes| == 5
    ensures X.CanFormat(img, totalBlocks, now, rest) && CanRun(S.Start(img, totalBlocks, now, rest), Setup(now))
    ensures var w := Run(S.Start(img, totalBlocks, now, rest), Setup(now));
            && IsOpen(w.files, FIRST_FD) && IsInode(w.fs, w.files[FIRST_FD].inode)
            && var w1 := Lseek(w, FIRST_FD, -1, SEEK_SET).1;
            && CanWriteFd(w1, FIRST_FD, bytes, now)
            && var (n, w2) := Write(w1, FIRST_FD, bytes, now);
               n == 5 && Readable(w2.fs, FIRST_INO) && |Content(w2.fs, FIRST_INO)| == 4
  {
    hide X.CanFormat, X.AfterFormat, CanRun, Run, Good, CanGrow, Shortage, Setup, Readable, Write, CanWriteFd, Lseek;
    var n, b, j := SetupRuns(img, totalBlocks, now, rest);
    var w := Run(S.Start(img, totalBlocks, now, rest), Setup(now));
    assert Word(now) && IsOpen(w.files, FIRST_FD) && w.files[FIRST_FD] == Fd(FIRST_INO, 0, WRITE_ONLY);
    hide ZeroDisk, S.Start;
    FirstBlockFits(w.fs, n, b, j, 4);
    assert IsInode(w.fs, FIRST_INO) && LiveFile(w.fs, FIRST_INO) && Inv(w.fs) && List(w.fs, FIRST_INO) == [];
    hide TwoFiles, Inv;
    NewFileEmpty(w.fs, FIRST_INO);
    WriteFromMinusOne(w, FIRST_FD, bytes, now);
  }

  lemma NewFileEmpty(fs: Fs, ino: nat)
    requires Inv(fs) && LiveFile(fs, ino) && List(fs, ino) == []
    ensures Readable(fs, ino) && Content(fs, ino) == []
  {
    hide Inv, Direct, Flat;
    FileReadable(fs, ino);
  }

  // ----- a broken ownership -----

  /** The first file has got blocks, everything else in the root is as before. */
  lemma FirstWritten(fs: Fs, fs': Fs, n: nat, b: nat, j: nat)
    requires TwoFiles(fs, n, b, j) && Inv(fs') && LiveFile(fs', FIRST_INO) && Changes(fs, fs', FIRST_INO)
    requires GetInode(fs', FIRST_INO).size > 0
    ensures List(fs', FIRST_INO) != [] && Live(fs', FIRST_INO + 1) && SmallRoot(fs', n, j, 0)
    ensures DirBlocksOk(fs', AllBlocks(fs', ROOT_INODE))
    ensures MapOf(fs', ROOT_INODE) == map[A_NAME := FIRST_INO, B_NAME := FIRST_INO + 1]
  {
    hide Inv, Direct, AllBlocks, MapOf, Undisturbed, Disjoint, HasFree, B.Chain, B.Parse, DirectOnly, Owned, TreesOk,
         Slack;
    FileFacts(fs', FIRST_INO);
    assert Undisturbed(fs, fs', ROOT_INODE);
    UndisturbedMeans(fs, fs', ROOT_INODE);
    assert List(fs, ROOT_INODE)[0] == n;
    MapKept(fs, fs', ROOT_INODE);
  }

  /** The entry of the second file can be removed, which keeps the invariant; freeing its inode does not. */
  lemma UnlinkBreaks(fs: Fs, n: nat, j: nat)
    requires Inv(fs) && SmallRoot(fs, n, j, 0) && DirBlocksOk(fs, AllBlocks(fs, ROOT_INODE))
    requires MapOf(fs, ROOT_INODE) == map[A_NAME := FIRST_INO, B_NAME := FIRST_INO + 1]
    requires LiveFile(fs, FIRST_INO) && List(fs, FIRST_INO) != [] && Live(fs, FIRST_INO + 1)
    ensures CanFreeEntry(fs, ROOT_INODE, FIRST_INO + 1)
    ensures var fs' := FreeEntry(fs, ROOT_INODE, FIRST_INO + 1);
            && Inv(fs') && Live(fs', FIRST_INO + 1) && DirBlocksOk(fs', AllBlocks(fs', ROOT_INODE))
            && MapOf(fs', ROOT_INODE) == map[A_NAME := FIRST_INO]
            && !Inv(Q.Ifree(fs', FIRST_INO + 1))
  {
    hide Inv, Direct, AllBlocks, MapOf, Undisturbed, Disjoint, B.Chain, B.Parse, TreesOk, Slack, CanFreeEntry,
         FreeEntry, Q.Ifree, D.UniqueNames, D.Ordinary;
    assert A_NAME[0] == 97 && B_NAME[0] == 98;
    DirReadable(fs, ROOT_INODE);
    FreeEntryPossible(fs, ROOT_INODE, B_NAME);
    var fs' := FreeEntry(fs, ROOT_INODE, FIRST_INO + 1);
    var name := FreeEntryRemoves(fs, ROOT_INODE, FIRST_INO + 1);
    assert name == B_NAME;
    assert Undisturbed(fs, fs', FIRST_INO) && Live(fs', FIRST_INO) && Live(fs', FIRST_INO + 1);
    UndisturbedMeans(fs, fs', FIRST_INO);
    Q.BreaksBehindLive(fs', FIRST_INO + 1);
  }

  /** Unlinking the second file keeps the invariant as far as its entry goes, and breaks it with its inode. */
  ghost predicate UnlinkHarms(fs: Fs) {
    && Inv(fs) && CanFreeEntry(fs, ROOT_INODE, FIRST_INO + 1)
    && var fs' := FreeEntry(fs, ROOT_INODE, FIRST_INO + 1);
       Inv(fs') && Live(fs', FIRST_INO + 1) && !Inv(Q.Ifree(fs', FIRST_INO + 1))
  }

  lemma WriteThenUnlink(fs: Fs, n: nat, b: nat, j: nat, bytes: seq<byte>, now: nat)
    requires TwoFiles(fs, n, b, j) && 0 < |bytes| < BLOCK_SIZE && Word(now)
    ensures CanWrite(fs, FIRST_INO, 0, |bytes|, now) && UnlinkHarms(WriteFile(fs, FIRST_INO, 0, bytes, now))
  {
    hide CanGrow, WriteFile, CanWrite, CanFreeEntry, FreeEntry, Q.Ifree, Shortage, Changes, Inv, SmallRoot, HasFree,
         AllBlocks, MapOf, Direct;
    FirstBlockFits(fs, n, b, j, |bytes|);
    WritePossible(fs, FIRST_INO, 0, |bytes|, now);
    WriteRefines(fs, FIRST_INO, 0, bytes, now);
    var fs' := WriteFile(fs, FIRST_INO, 0, bytes, now);
    assert |Content(fs', FIRST_INO)| >= |bytes|;
    hide Readable, Content;
    FirstWritten(fs, fs', n, b, j);
    UnlinkBreaks(fs', n, j);
  }

  /**
   * After the set-up and a write to the first file, the second file is unlinked: removing its entry is harmless,
   * freeing its inode takes away the blocks of the first file.
   */
  lemma BreaksOwnership(img: seq<Block>, totalBlocks: nat, now: nat, rest: seq<byte>, bytes: seq<byte>)
    requires ZeroDisk(img, totalBlocks, now, rest) && 0 < |bytes| < BLOCK_SIZE
    ensures X.CanFormat(img, totalBlocks, now, rest) && CanRun(S.Start(img, totalBlocks, now, rest), Setup(now))
    ensures var w := Run(S.Start(img, totalBlocks, now, rest), Setup(now));
            CanWriteFd(w, FIRST_FD, bytes, now) && UnlinkHarms(Write(w, FIRST_FD, bytes, now).1.fs)
  {
    hide X.CanFormat, X.AfterFormat, CanRun, Run, Good, Setup, WriteFile, CanWrite, UnlinkHarms, TwoFiles;
    var n, b, j := SetupRuns(img, totalBlocks, now, rest);
    assert Word(now);
    hide ZeroDisk, BlockGroupCalculation, HasRoom;
    var w := Run(S.Start(img, totalBlocks, now, rest), Setup(now));
    assert w.files[FIRST_FD] == Fd(FIRST_INO, 0, WRITE_ONLY);
    WriteThenUnlink(w.fs, n, b, j, bytes, now);
  }

  /** The disk of the repository's configuration, filled with zeros, is such a disk. */
  lemma ConfiguredZeroDisk(now: nat, rest: seq<byte>)
    requires Word(now) && |rest| == BLOCK_SIZE - 92
    ensures ZeroDisk(seq(65539, _ => ZeroBlock()), 65539, now, rest)
  {
    ConfiguredDisk();
  }
}
