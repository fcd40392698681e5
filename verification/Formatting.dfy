/** What formatting leaves on the disk, and that it is a good file system with an empty root directory. */
module Formatting {
  import opened Bytes
  import opened Geometry
  import opened Inodes
  import opened DirRecords
  import opened Fs
  import opened Image
  import opened Invariant
  import opened DirUpdates
  import opened DirMaps
  import opened Creation
  import opened Balance
  import A = Allocation
  import BM = BitMap
  import B = DirBlock
  import D = Directories

  // ----- one group after the other -----

  /** The blocks of the group from the inode bitmap on are zero. */
  ghost predicate Cleared(g: Geo, img: seq<Block>, i: nat)
    requires Fits(g, img) && i < g.groups
  {
    GroupWithin(g, i);
    forall b :: InodeBitmapIndex(g, i) <= b < GroupIndex(g, i) + g.blocksPerGroup ==> img[b] == ZeroBlock()
  }

  function WithFirst(bits: seq<bool>, n: nat): (r: seq<bool>)
    ensures |r| == |bits| && forall k :: 0 <= k < |r| ==> r[k] == (k < n || bits[k])
  {
    seq(|bits|, k requires 0 <= k < |bits| => k < n || bits[k])
  }

  lemma NoMoreBits(bits: seq<bool>)
    ensures WithFirst(bits, 0) == bits
  {
  }

  lemma OneMoreBit(bits: seq<bool>, n: nat)
    requires n < |bits|
    ensures WithFirst(bits, n)[n := true] == WithFirst(bits, n + 1)
  {
  }

  /** The bits of the group's metadata are set, the others are as they were on the disk. */
  ghost predicate MetaSet(g: Geo, img0: seq<Block>, img: seq<Block>, i: nat)
    requires Fits(g, img0) && Fits(g, img) && i < g.groups
  {
    GroupBits(g, img, i) == WithFirst(GroupBits(g, img0, i), g.MetaBlocks())
  }

  /** The groups below `i` have been initialised, the others still have their old block bitmaps. */
  ghost predicate DoneUpTo(g: Geo, img0: seq<Block>, img: seq<Block>, i: nat) {
    && Fits(g, img0) && Fits(g, img) && i <= g.groups
    && (forall k: nat :: k < i ==> Cleared(g, img, k) && MetaSet(g, img0, img, k))
    && (forall k: nat :: i <= k < g.groups ==> GroupBits(g, img, k) == GroupBits(g, img0, k))
  }

  lemma Below(g: Geo, i: nat, k: nat)
    requires k < i
    ensures GroupIndex(g, k) + g.blocksPerGroup <= GroupIndex(g, i)
  {
    assert (k + 1) * g.blocksPerGroup <= i * g.blocksPerGroup;
  }

  /** Writing at or behind the group's own block bitmap leaves the other groups' bitmaps and lower groups alone. */
  lemma WriteInGroup(g: Geo, img: seq<Block>, img': seq<Block>, i: nat, k: nat)
    requires Fits(g, img) && Fits(g, img') && i < g.groups && k < g.groups && k != i
    requires forall b ::
               0 <= b < |img| && b < |img'|
               && !(GroupIndex(g, i) <= b < GroupIndex(g, i) + g.blocksPerGroup) ==>
               img'[b] == img[b]
    ensures GroupBits(g, img', k) == GroupBits(g, img, k) && (Cleared(g, img, k) ==> Cleared(g, img', k))
  {
    GroupWithin(g, k);
    GroupWithin(g, i);
    if k < i {
      Below(g, i, k);
    } else {
      Below(g, k, i);
    }
    hide BM.Bits;
  }

  /** Group `i` has been initialised as well. */
  lemma OneMore(g: Geo, img0: seq<Block>, img: seq<Block>, img': seq<Block>, i: nat)
    requires DoneUpTo(g, img0, img, i) && i < g.groups && Fits(g, img') && |img'| == |img|
    requires forall b ::
               0 <= b < |img|
               && !(GroupIndex(g, i) <= b < GroupIndex(g, i) + g.blocksPerGroup) ==>
               img'[b] == img[b]
    requires Cleared(g, img', i) && MetaSet(g, img0, img', i)
    ensures DoneUpTo(g, img0, img', i + 1)
  {
    hide Cleared, GroupBits, WithFirst;
    forall k: nat | k < g.groups && k != i
      ensures GroupBits(g, img', k) == GroupBits(g, img, k) && (Cleared(g, img, k) ==> Cleared(g, img', k))
    {
      WriteInGroup(g, img, img', i, k);
    }
    forall k: nat | k < i + 1 ensures Cleared(g, img', k) && MetaSet(g, img0, img', k) {
      if k < i {
        assert Cleared(g, img, k) && MetaSet(g, img0, img, k);
      }
    }
    forall k: nat | i + 1 <= k < g.groups ensures GroupBits(g, img', k) == GroupBits(g, img0, k) {
    }
  }

  /** A group is initialised by clearing its tail and marking its metadata. */
  lemma GroupInitialised(g: Geo, img0: seq<Block>, img: seq<Block>, mid: seq<Block>, img': seq<Block>, i: nat)
    requires DoneUpTo(g, img0, img, i) && i < g.groups && |img| == |mid| == |img'| && Fits(g, mid) && Fits(g, img')
    requires Cleared(g, mid, i)
    requires forall b ::
               0 <= b < |img|
               && !(InodeBitmapIndex(g, i) <= b < GroupIndex(g, i) + g.blocksPerGroup) ==>
               mid[b] == img[b]
    requires forall b :: 0 <= b < |img| && b != BlockBitmapIndex(g, i) ==> img'[b] == mid[b]
    requires GroupBits(g, img', i) == WithFirst(GroupBits(g, mid, i), g.MetaBlocks())
    ensures DoneUpTo(g, img0, img', i + 1) && |img| > 1 && img'[1] == img[1]
  {
    GroupWithin(g, i);
    AddressLocated(g, i, BlockBitmap);
    assert mid[BlockBitmapIndex(g, i)] == img[BlockBitmapIndex(g, i)];
    assert GroupBits(g, mid, i) == GroupBits(g, img, i);
    assert Cleared(g, img', i) && MetaSet(g, img0, img', i);
    hide Cleared, GroupBits, WithFirst, DoneUpTo, MetaSet;
    OneMore(g, img0, img, img', i);
  }

  // ----- the file system that the initialised groups mean -----

  const ZERO_INODE: Inode := Inode(0, 0, 0, 0, 0, 0, 0, 0, 0, 0, 0, 0, seq(N_BLOCKS, _ => 0), seq(7, _ => 0))

  /** The block bitmap with the metadata of every group marked. */
  function MetaBits(g: Geo, bits: seq<bool>): (r: seq<bool>)
    requires g.blocksPerGroup > 0
    ensures |r| == |bits|
  {
    seq(|bits|, j requires 0 <= j < |bits| => j % g.blocksPerGroup < g.MetaBlocks() || bits[j])
  }

  /** All groups initialised: empty inode tables and zero data blocks. */
  function Prepared(g: Geo, bits: seq<bool>, super: Block): Fs
    requires g.blocksPerGroup > 0
  {
    Fs(g, super, MetaBits(g, bits), seq(g.Inodes(), _ => false), seq(g.Inodes(), _ => ZERO_INODE),
       map b | 1 <= b <= g.Blocks() && IsData(g, b) :: ZeroBlock())
  }

  lemma ZeroWord(o: nat)
    requires o + 4 <= BLOCK_SIZE
    ensures Le32(ZeroBlock(), o) == 0
  {
  }

  lemma ZeroSlot(slot: nat)
    requires slot < INODES_PER_BLOCK
    ensures SlotInode(ZeroBlock(), slot) == ZERO_INODE
  {
    hide Le32;
    var ws := WordsAt(ZeroBlock(), INODE_SIZE * slot, 32);
    forall k | 0 <= k < 32 ensures ws[k] == 0 {
      ZeroWord(INODE_SIZE * slot + 4 * k);
    }
    assert ws[10..25] == seq(N_BLOCKS, _ => 0) && ws[25..] == seq(7, _ => 0);
  }

  lemma PreparedBits(g: Geo, img0: seq<Block>, img: seq<Block>)
    requires DoneUpTo(g, img0, img, g.groups)
    ensures Abs(g, img).blockBits == MetaBits(g, Abs(g, img0).blockBits)
  {
    hide GroupBits, Geo.Ok;
    forall j | 0 <= j < g.Blocks()
      ensures BlockBitAt(g, img, j) == (j % g.blocksPerGroup < g.MetaBlocks() || BlockBitAt(g, img0, j))
    {
      var (i, k) := Cut(j, g.blocksPerGroup, g.groups);
      assert MetaSet(g, img0, img, i);
    }
  }

  lemma ClearedAt(g: Geo, img: seq<Block>, i: nat, r: Region)
    requires Fits(g, img) && i < g.groups && Cleared(g, img, i) && RegionOk(g, r)
    requires r.InodeBitmap? || r.InodeTable? || r.Data?
    ensures Address(g, i, r) < |img| && img[Address(g, i, r)] == ZeroBlock()
  {
    AddressLocated(g, i, r);
  }

  lemma PreparedInodeBits(g: Geo, img0: seq<Block>, img: seq<Block>)
    requires DoneUpTo(g, img0, img, g.groups)
    ensures Abs(g, img).inodeBits == seq(g.Inodes(), _ => false)
  {
    forall j | 0 <= j < g.Inodes() ensures !InodeBitAt(g, img, j) {
      var (i, k) := Cut(j, g.inodesPerGroup, g.groups);
      ClearedAt(g, img, i, InodeBitmap);
    }
  }

  lemma PreparedInodes(g: Geo, img0: seq<Block>, img: seq<Block>)
    requires DoneUpTo(g, img0, img, g.groups)
    ensures Abs(g, img).inodes == seq(g.Inodes(), _ => ZERO_INODE)
  {
    hide SlotInode, InodeAt, Cleared, MetaSet, GroupBits;
    forall j | 0 <= j < g.Inodes() ensures InodeAt(g, img, j) == ZERO_INODE {
      InodePlaceInTable(g, j + 1);
      PreparedInode(g, img, j);
    }
  }

  lemma PreparedInode(g: Geo, img: seq<Block>, j: nat)
    requires Fits(g, img) && j < g.Inodes() && InodeGroup(g, j + 1) < g.groups && Cleared(g, img, InodeGroup(g, j + 1))
    ensures InodeAt(g, img, j) == ZERO_INODE
  {
    InodePlaceInTable(g, j + 1);
    hide SlotInode, Cleared, Geo.Ok, InodePlace, InodeGroup;
    ClearedAt(g, img, InodeGroup(g, j + 1), InodeTable(j % g.inodesPerGroup / INODES_PER_BLOCK));
    ZeroSlot(InodePlace(g, j + 1).1);
  }

  lemma PreparedData(g: Geo, img0: seq<Block>, img: seq<Block>)
    requires DoneUpTo(g, img0, img, g.groups)
    ensures Abs(g, img).data == Prepared(g, [], img[1]).data
  {
    forall b | 1 <= b <= g.Blocks() && Locate(g, b).1.Data? ensures img[b] == ZeroBlock() {
      LocatedAddress(g, b);
      ClearedAt(g, img, Locate(g, b).0, Locate(g, b).1);
    }
  }

  /** When every group has been initialised, the disk means the prepared file system. */
  lemma PreparedMeans(g: Geo, img0: seq<Block>, img: seq<Block>)
    requires DoneUpTo(g, img0, img, g.groups)
    ensures Abs(g, img) == Prepared(g, Abs(g, img0).blockBits, img[1])
  {
    PreparedBits(g, img0, img);
    PreparedInodeBits(g, img0, img);
    PreparedInodes(g, img0, img);
    PreparedData(g, img0, img);
    hide BlockBitAt, InodeBitAt, InodeAt, MetaBits, DoneUpTo;
  }

  // ----- the root directory -----

  /** Formatting sets the bit at index 2, which is that of inode 3. */
  const ROOT_BIT: nat := 2

  /** The prepared file system can take a root directory. */
  ghost predicate CanFormat(g: Geo, bits: seq<bool>, super: Block) {
    g.Ok() && |bits| == g.Blocks() && CanAllocate(WithRootBit(Prepared(g, bits, super)), 0, 1)
  }

  function WithRootBit(fs: Fs): Fs {
    if ROOT_BIT < |fs.inodeBits| then fs.(inodeBits := fs.inodeBits[ROOT_BIT := true]) else fs
  }

  lemma PreparedOk(g: Geo, bits: seq<bool>, super: Block)
    requires g.Ok() && |bits| == g.Blocks()
    ensures Ok(WithRootBit(Prepared(g, bits, super))) && A.MetaMarked(WithRootBit(Prepared(g, bits, super)))
    ensures ROOT_BIT < g.inodesPerGroup <= g.Inodes() && IsInode(WithRootBit(Prepared(g, bits, super)), ROOT_INODE)
  {
    GroupWithin(g, 0);
    var fs := WithRootBit(Prepared(g, bits, super));
    forall b | 1 <= b <= g.Blocks() && b !in fs.data ensures fs.blockBits[b - 1] {
      LocatedAddress(g, b);
    }
    hide MetaBits;
  }

  /** The file system after formatting. */
  function Formatted(g: Geo, bits: seq<bool>, super: Block, now: nat): Fs
    requires CanFormat(g, bits, super) && Word(now)
  {
    PreparedOk(g, bits, super);
    var fs := WithRootBit(Prepared(g, bits, super));
    HintOfRoot(fs);
    BornDir(fs, ROOT_INODE, ROOT_INODE, now)
  }

  lemma HintOfRoot(fs: Fs)
    requires fs.g.Ok()
    ensures Hint(fs, ROOT_INODE) == 0
  {
  }

  // ----- the formatted file system is good -----

  lemma OnlyRootLive(fs: Fs, nid: nat)
    requires Ok(fs) && nid == ROOT_INODE && IsInode(fs, nid)
    requires forall j :: 0 <= j < |fs.inodeBits| && j != ROOT_BIT ==> !fs.inodeBits[j]
    ensures Live(fs, ROOT_INODE) && forall a :: Live(fs, a) ==> a == ROOT_INODE
  {
  }

  /** The root directory of the new file system. */
  ghost predicate RootMade(fs: Fs, n: nat) {
    && Ok(fs) && A.MetaMarked(fs) && Live(fs, ROOT_INODE) && (forall a :: Live(fs, a) ==> a == ROOT_INODE)
    && DirectOnly(GetInode(fs, ROOT_INODE)) && List(fs, ROOT_INODE) == [n] && IsDir(GetInode(fs, ROOT_INODE))
    && n in fs.data && fs.data[n] == B.InitBlock(ROOT_INODE, ROOT_INODE)
    && 1 <= n <= |fs.blockBits| && fs.blockBits[n - 1]
  }

  lemma PreparedParts(g: Geo, bits: seq<bool>, super: Block)
    requires g.Ok()
    ensures var prep := WithRootBit(Prepared(g, bits, super));
            && prep.g == g && prep.super == super && prep.blockBits == MetaBits(g, bits)
            && forall j :: 0 <= j < |prep.inodeBits| && j != ROOT_BIT ==> !prep.inodeBits[j]
  {
  }

  lemma FormattedRoot(g: Geo, bits: seq<bool>, super: Block, now: nat) returns (n: nat)
    requires CanFormat(g, bits, super) && Word(now)
    ensures var fs := Formatted(g, bits, super, now);
            && RootMade(fs, n) && fs.g == g && fs.super == super && fs.blockBits == Marked(MetaBits(g, bits), [n])
            && n <= |bits| && !MetaBits(g, bits)[n - 1]
            && forall j :: 0 <= j < |fs.inodeBits| && j != ROOT_BIT ==> !fs.inodeBits[j]
  {
    hide FreeFrom, Direct, DirectOnly, B.InitBlock, MetaBits, Ok, A.MetaMarked, Prepared, FirstFree;
    PreparedOk(g, bits, super);
    var prep := WithRootBit(Prepared(g, bits, super));
    PreparedParts(g, bits, super);
    HintOfRoot(prep);
    n := FirstFree(prep, ROOT_INODE);
    BornDirList(prep, ROOT_INODE, ROOT_INODE, now);
    hide BornDir, WithRootBit;
    OnlyRootLive(Formatted(g, bits, super, now), ROOT_INODE);
  }

  /** The new file system satisfies the invariant, and its root directory is empty. */
  lemma FormattedGood(g: Geo, bits: seq<bool>, super: Block, now: nat)
    requires CanFormat(g, bits, super) && Word(now)
    ensures var fs := Formatted(g, bits, super, now);
            && Inv(fs) && fs.g == g && fs.super == super
            && DirBlocksOk(fs, AllBlocks(fs, ROOT_INODE)) && MapOf(fs, ROOT_INODE) == map[]
            && Find(fs, ROOT_INODE, DOT_DOT) == Some(ROOT_INODE) && forall a :: Live(fs, a) ==> a == ROOT_INODE
  {
    hide FreeFrom, Direct, DirectOnly, B.InitBlock, Ok, A.MetaMarked, Formatted, CanFormat, AllBlocks, D.Listing,
         NodeGood;
    var n := FormattedRoot(g, bits, super, now);
    BornDirGood(Formatted(g, bits, super, now), ROOT_INODE, n, ROOT_INODE);
    assert D.AsMap([]) == map[];
    hide Find, Inv, B.Chain, B.Parse;
    DotsFound(Formatted(g, bits, super, now), ROOT_INODE);
  }

  /** Formatting sets one bit of the inode bitmaps, at index 2, and makes inode 2 an empty directory of its own. */
  lemma FormattedInodes(g: Geo, bits: seq<bool>, super: Block, now: nat)
    requires CanFormat(g, bits, super) && Word(now)
    ensures var fs := Formatted(g, bits, super, now);
            && (forall j :: 0 <= j < |fs.inodeBits| ==> (fs.inodeBits[j] <==> j == 2))
            && LiveDir(fs, 2) && DirBlocksOk(fs, AllBlocks(fs, 2)) && MapOf(fs, 2) == map[]
            && Find(fs, 2, [46]) == Some(2) && Find(fs, 2, [46, 46]) == Some(2)
            && GetInode(fs, 2) == Inode(0x41ED, 0, 0, now, now, now, 0, 0, 2, 1, 0, 0, GetInode(fs, 2).block,
                                        seq(7, _ => 0))
  {
    RootRecorded(g, bits, super, now);
    hide FreeFrom, Direct, DirectOnly, B.InitBlock, Ok, A.MetaMarked, Formatted, CanFormat, AllBlocks, D.Listing,
         NodeGood, Inv, Find, MapOf;
    FormattedGood(g, bits, super, now);
    var n := FormattedRoot(g, bits, super, now);
    DotsFound(Formatted(g, bits, super, now), 2);
  }

  lemma BornDirInode(fs: Fs, nid: nat, father: nat, now: nat)
    requires Ok(fs) && IsInode(fs, nid) && Word(now) && CanAllocate(fs, Hint(fs, nid), 1)
    ensures var fs' := BornDir(fs, nid, father, now);
            && fs'.inodeBits == fs.inodeBits && IsInode(fs', nid)
            && GetInode(fs', nid) == DirInode(GetInode(fs', nid).block[0], now)
  {
    hide FreeFrom, Marked, B.InitBlock, InodeOk;
    FirstFreeWord(fs, nid);
  }

  lemma PreparedBit(g: Geo, bits: seq<bool>, super: Block)
    requires g.Ok() && |bits| == g.Blocks()
    ensures var prep := WithRootBit(Prepared(g, bits, super));
            prep.g == g && 2 < |prep.inodeBits| && prep.inodeBits[2]
  {
    hide MetaBits;
    PreparedOk(g, bits, super);
  }

  lemma RootRecorded(g: Geo, bits: seq<bool>, super: Block, now: nat)
    requires CanFormat(g, bits, super) && Word(now)
    ensures var fs := Formatted(g, bits, super, now);
            && 2 < |fs.inodeBits| && fs.inodeBits[2] && IsInode(fs, 2)
            && GetInode(fs, 2) == DirInode(GetInode(fs, 2).block[0], now)
  {
    hide FreeFrom, Direct, DirectOnly, B.InitBlock, MetaBits, Ok, A.MetaMarked, Prepared, FirstFree, WithRootBit,
         BornDir, DirInode;
    PreparedOk(g, bits, super);
    PreparedBit(g, bits, super);
    HintOfRoot(WithRootBit(Prepared(g, bits, super)));
    BornDirInode(WithRootBit(Prepared(g, bits, super)), ROOT_INODE, ROOT_INODE, now);
  }

  lemma MetaBitOf(g: Geo, bits: seq<bool>, n: nat, b: nat)
    requires g.Ok() && |bits| == g.Blocks() && IsData(g, b)
    ensures A.IsFree(g, MetaBits(g, bits), b) <==> A.IsFree(g, bits, b)
    ensures A.IsFree(g, Marked(MetaBits(g, bits), [n]), b) <==> A.IsFree(g, bits, b) && b != n
  {
    LocatedAddress(g, b);
  }

  lemma RootLists(fs: Fs, n: nat, b: nat)
    requires RootMade(fs, n)
    ensures Listed(fs, b) <==> b == n
    ensures b in fs.data <==> IsData(fs.g, b)
  {
    hide Direct, DirectOnly, B.InitBlock, IsData, Geo.Ok, A.MetaMarked, InodeOk;
    assert List(fs, ROOT_INODE)[0] == n;
  }

  /** Formatting clears no marks of data blocks, so it loses exactly those that were marked before. */
  lemma FormattedLoses(g: Geo, bits: seq<bool>, super: Block, now: nat)
    requires CanFormat(g, bits, super) && Word(now)
    ensures NothingLost(Formatted(g, bits, super, now)) <==> forall b :: IsData(g, b) ==> A.IsFree(g, bits, b)
  {
    assert |bits| == g.Blocks() && g.Ok();
    hide MetaBits, Formatted, CanFormat, IsData, Geo.Ok, Marked, RootMade, Listed;
    var n := FormattedRoot(g, bits, super, now);
    var fs := Formatted(g, bits, super, now);
    assert |fs.blockBits| == g.Blocks();
    forall b: nat ensures b in fs.data <==> IsData(g, b) {
      RootLists(fs, n, b);
    }
    forall b: nat | IsData(g, b)
      ensures 1 <= b <= g.Blocks()
      ensures (fs.blockBits[b - 1] ==> Listed(fs, b)) <==> A.IsFree(g, bits, b)
    {
      RootLists(fs, n, b);
      MetaBitOf(g, bits, n, b);
      DataWithin(g, b);
    }
  }

  lemma DataWithin(g: Geo, b: nat)
    requires IsData(g, b)
    ensures 1 <= b <= g.Blocks()
  {
  }

  // ----- copies of the super block and of the descriptors -----

  /** The group descriptors as words, eight for each group. */
  function DescWord(g: Geo, w: nat): (word: nat)
    requires g.Ok()
  {
    var i, field := w / 8, w % 8;
    if i >= g.groups then 0
    else if field == 0 then BlockBitmapIndex(g, i)
    else if field == 1 then InodeBitmapIndex(g, i)
    else if field == 2 then InodeTableIndex(g, i)
    else if field == 3 then g.DataBlocks() + 0x1_0000 * g.inodesPerGroup
    else 0
  }

  /** The `k`-th block of the descriptor table. */
  function DescBlock(g: Geo, k: nat): Block
    requires g.Ok()
  {
    WordBytes(seq<nat>(POINTERS_PER_BLOCK,
                       j requires 0 <= j < POINTERS_PER_BLOCK => DescWord(g, POINTERS_PER_BLOCK * k + j)))
  }

  /** A block that belongs to no bitmap, table or data region. */
  ghost predicate Outside(g: Geo, b: nat)
    requires g.Ok()
  {
    RegionOf(g, b).None? || RegionOf(g, b).value.SuperBlock? || RegionOf(g, b).value.DescTable?
  }

  lemma OutsideKeepsBits(g: Geo, img: seq<Block>, b: nat, block: Block, k: nat)
    requires Fits(g, img) && b < |img| && Outside(g, b) && k < g.groups
    ensures GroupBits(g, img[b := block], k) == GroupBits(g, img, k)
  {
    Addressed(g, k, BlockBitmap, b);
    hide BM.Bits;
  }

  /** Copies of the super block and the descriptors leave the block bitmaps alone. */
  lemma OutsideNotDone(g: Geo, img0: seq<Block>, img: seq<Block>, b: nat, block: Block)
    requires DoneUpTo(g, img0, img, 0) && b < |img| && Outside(g, b)
    ensures DoneUpTo(g, img0, img[b := block], 0)
  {
    hide GroupBits, Outside;
    forall k: nat | k < g.groups ensures GroupBits(g, img[b := block], k) == GroupBits(g, img0, k) {
      OutsideKeepsBits(g, img, b, block, k);
    }
  }

  lemma SuperOutside(g: Geo, i: nat)
    requires g.Ok() && i < g.groups
    ensures Outside(g, SuperBlockIndex(g, i)) && 1 <= SuperBlockIndex(g, i) <= g.Blocks()
    ensures SuperBlockIndex(g, i) == 1 <==> i == 0
  {
    AddressLocated(g, i, SuperBlock);
    AddressLocated(g, 0, SuperBlock);
  }

  lemma DescOutside(g: Geo, i: nat, k: nat)
    requires g.Ok() && i < g.groups && k < g.descBlocks
    ensures Outside(g, DescTableIndex(g, i) + k) && 1 < DescTableIndex(g, i) + k <= g.Blocks()
  {
    AddressLocated(g, i, DescTable(k));
  }

  /**
   * The root's block can be allocated exactly if a data block of a group below the last is marked free on the disk; so
   * a disk of one group can never be formatted.
   */
  lemma FormatPossible(g: Geo, bits: seq<bool>, super: Block)
    requires g.Ok() && |bits| == g.Blocks()
    ensures CanFormat(g, bits, super)
        <==> exists b :: A.IsFree(g, bits, b) && IsData(g, b) && A.GroupOf(g, b) < g.groups - 1
    ensures g.groups == 1 ==> !CanFormat(g, bits, super)
  {
    var fs := WithRootBit(Prepared(g, bits, super));
    assert fs.blockBits == MetaBits(g, bits) && fs.g == g;
    A.CanAllocateOne(fs, 0);
    forall b: nat | 1 <= b <= g.Blocks()
      ensures A.IsFree(g, fs.blockBits, b) <==> A.IsFree(g, bits, b) && IsData(g, b)
      ensures A.Scans(g, 0, b) <==> A.GroupOf(g, b) < g.groups - 1
    {
      LocatedAddress(g, b);
    }
    hide FreeFrom, MetaBits, Prepared, WithRootBit, IsData, A.GroupOf, Geo.Ok;
  }
}
