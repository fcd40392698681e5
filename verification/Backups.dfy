/** The boot block, and the copies of the super block and of the group descriptors in every group. */
module Backups {
  import opened Bytes
  import opened Geometry
  import opened Inodes
  import opened Fs
  import opened Image
  import M = Formatting

  // ----- blocks that no bitmap, table or data region holds -----

  /** The blocks outside all bitmaps, tables and data regions; the others are left blank. */
  ghost function Outer(g: Geo, img: seq<Block>): (outer: seq<Block>)
    ensures |outer| == |img|
  {
    seq(|img|, b requires 0 <= b < |img| => if g.Ok() && !M.Outside(g, b) then ZeroBlock() else img[b])
  }

  lemma OuterKept(g: Geo, img: seq<Block>, b: nat, block: Block)
    requires g.Ok() && b < |img| && !M.Outside(g, b)
    ensures Outer(g, img[b := block]) == Outer(g, img)
  {
    hide M.Outside;
  }

  lemma InnerBlock(g: Geo, i: nat, r: Region)
    requires g.Ok() && i < g.groups && RegionOk(g, r) && !r.SuperBlock? && !r.DescTable?
    ensures 1 <= Address(g, i, r) <= g.Blocks() && !M.Outside(g, Address(g, i, r))
  {
    AddressLocated(g, i, r);
  }

  lemma DataInner(g: Geo, b: nat)
    requires IsData(g, b)
    ensures !M.Outside(g, b)
  {
  }

  /** Every block of a group from the inode bitmap on is a piece of it. */
  lemma GroupInner(g: Geo, i: nat, b: nat)
    requires g.Ok() && i < g.groups && InodeBitmapIndex(g, i) <= b < GroupIndex(g, i) + g.blocksPerGroup
    ensures !M.Outside(g, b)
  {
    if b == InodeBitmapIndex(g, i) {
      InnerBlock(g, i, InodeBitmap);
    } else if b < DataTableIndex(g, i) {
      InnerBlock(g, i, InodeTable(b - InodeTableIndex(g, i)));
    } else {
      InnerBlock(g, i, Data(b - DataTableIndex(g, i)));
    }
  }

  lemma TableInner(g: Geo, ino: nat)
    requires g.Ok() && 1 <= ino <= g.Inodes()
    ensures !M.Outside(g, InodePlace(g, ino).0)
  {
    InodePlaceInTable(g, ino);
  }

  lemma OuterSame(g: Geo, img: seq<Block>, img': seq<Block>)
    requires g.Ok() && |img'| == |img| && forall b :: 0 <= b < |img| && M.Outside(g, b) ==> img'[b] == img[b]
    ensures Outer(g, img') == Outer(g, img)
  {
    hide M.Outside;
  }

  /** Initialising a group changes its own pieces only. */
  lemma GroupKeeps(g: Geo, img: seq<Block>, mid: seq<Block>, img': seq<Block>, i: nat)
    requires g.Ok() && i < g.groups && |img| == |mid| == |img'|
    requires forall b ::
               0 <= b < |img|
               && !(InodeBitmapIndex(g, i) <= b < GroupIndex(g, i) + g.blocksPerGroup) ==>
               mid[b] == img[b]
    requires forall b :: 0 <= b < |img| && b != BlockBitmapIndex(g, i) ==> img'[b] == mid[b]
    ensures Outer(g, img') == Outer(g, img)
  {
    InnerBlock(g, i, BlockBitmap);
    assert BlockBitmapIndex(g, i) == Address(g, i, BlockBitmap);
    hide M.Outside, Geo.Ok, BlockBitmapIndex, InodeBitmapIndex, GroupIndex;
    forall b: nat | b < |img| && M.Outside(g, b) ensures img'[b] == img[b] {
      if InodeBitmapIndex(g, i) <= b < GroupIndex(g, i) + g.blocksPerGroup {
        GroupInner(g, i, b);
      }
    }
    OuterSame(g, img, img');
  }

  // ----- what formatting writes there -----

  predicate Holds(img: seq<Block>, b: nat, block: Block) {
    b < |img| && img[b] == block
  }

  /** The groups below `n` have their copy of the super block. */
  ghost predicate SupersUpTo(g: Geo, img: seq<Block>, super: Block, n: nat) {
    forall i: nat :: i < n ==> Holds(img, Address(g, i, SuperBlock), super)
  }

  /** The group has the first `n` blocks of its descriptor table. */
  ghost predicate TableAt(g: Geo, img: seq<Block>, i: nat, n: nat)
    requires g.Ok()
  {
    forall k: nat :: k < n ==> Holds(img, Address(g, i, DescTable(k)), M.DescBlock(g, k))
  }

  ghost predicate TablesUpTo(g: Geo, img: seq<Block>, n: nat)
    requires g.Ok()
  {
    forall i: nat :: i < n ==> TableAt(g, img, i, g.descBlocks)
  }

  /** Everything outside the bitmaps, tables and data regions is as formatting leaves it. */
  ghost predicate Copied(g: Geo, img: seq<Block>, first: Block, super: Block) {
    g.Ok() && img != [] && img[0] == first && SupersUpTo(g, img, super, g.groups) && TablesUpTo(g, img, g.groups)
  }

  /** Pieces of different kinds, or of different groups, lie in different blocks. */
  lemma Apart(g: Geo, i: nat, r: Region, j: nat, s: Region)
    requires g.Ok() && i < g.groups && j < g.groups && RegionOk(g, r) && RegionOk(g, s)
    ensures Address(g, i, r) == Address(g, j, s) ==> i == j && r == s
    ensures Address(g, i, r) != 0
  {
    AddressLocated(g, i, r);
    AddressLocated(g, j, s);
  }

  lemma StoreKeepsSupers(g: Geo, img: seq<Block>, super: Block, n: nat, i: nat, r: Region, block: Block)
    requires g.Ok() && i < g.groups && RegionOk(g, r) && Address(g, i, r) < |img|
    requires n <= g.groups && SupersUpTo(g, img, super, n) && (r.SuperBlock? ==> n <= i) && img != []
    ensures SupersUpTo(g, img[Address(g, i, r) := block], super, n)
    ensures img[Address(g, i, r) := block][0] == img[0]
  {
    hide Geo.Ok, Address;
    Apart(g, i, r, i, r);
    forall j: nat | j < n ensures Holds(img[Address(g, i, r) := block], Address(g, j, SuperBlock), super) {
      assert Holds(img, Address(g, j, SuperBlock), super);
      Apart(g, j, SuperBlock, i, r);
    }
  }

  lemma StoreKeepsTable(g: Geo, img: seq<Block>, j: nat, n: nat, i: nat, r: Region, block: Block)
    requires g.Ok() && i < g.groups && RegionOk(g, r) && Address(g, i, r) < |img|
    requires j < g.groups && n <= g.descBlocks && TableAt(g, img, j, n)
    requires i != j || r.SuperBlock? || (r.DescTable? && n <= r.k)
    ensures TableAt(g, img[Address(g, i, r) := block], j, n)
  {
    hide Geo.Ok, Address, M.DescBlock;
    forall k: nat | k < n
      ensures Holds(img[Address(g, i, r) := block], Address(g, j, DescTable(k)), M.DescBlock(g, k))
    {
      assert Holds(img, Address(g, j, DescTable(k)), M.DescBlock(g, k));
      Apart(g, j, DescTable(k), i, r);
    }
  }

  lemma OneMoreSuper(g: Geo, img: seq<Block>, super: Block, n: nat)
    requires g.Ok() && n < g.groups && |img| > g.Blocks() && SupersUpTo(g, img, super, n)
    ensures SuperBlockIndex(g, n) < |img| && SupersUpTo(g, img[SuperBlockIndex(g, n) := super], super, n + 1)
    ensures img[SuperBlockIndex(g, n) := super][0] == img[0]
  {
    AddressLocated(g, n, SuperBlock);
    StoreKeepsSupers(g, img, super, n, n, SuperBlock, super);
    hide Geo.Ok;
  }

  lemma OneMoreDesc(g: Geo, img: seq<Block>, super: Block, i: nat, k: nat)
    requires g.Ok() && i < g.groups && |img| > g.Blocks() && k < g.descBlocks
    requires SupersUpTo(g, img, super, g.groups) && TablesUpTo(g, img, i) && TableAt(g, img, i, k)
    ensures DescTableIndex(g, i) + k < |img|
    ensures var img' := img[DescTableIndex(g, i) + k := M.DescBlock(g, k)];
            && SupersUpTo(g, img', super, g.groups) && TablesUpTo(g, img', i) && TableAt(g, img', i, k + 1)
            && img'[0] == img[0]
  {
    assert Address(g, i, DescTable(k)) == DescTableIndex(g, i) + k;
    AddressLocated(g, i, DescTable(k));
    hide Geo.Ok, M.DescBlock, Address, SupersUpTo, DescTableIndex, Locate;
    var block := M.DescBlock(g, k);
    var img' := img[Address(g, i, DescTable(k)) := block];
    StoreKeepsSupers(g, img, super, g.groups, i, DescTable(k), block);
    StoreKeepsTable(g, img, i, k, i, DescTable(k), block);
    forall j: nat | j < i ensures TableAt(g, img', j, g.descBlocks) {
      assert TableAt(g, img, j, g.descBlocks);
      StoreKeepsTable(g, img, j, g.descBlocks, i, DescTable(k), block);
    }
  }

  lemma NoSupers(g: Geo, img: seq<Block>, super: Block)
    ensures SupersUpTo(g, img, super, 0)
  {
  }

  lemma NoTable(g: Geo, img: seq<Block>, i: nat)
    requires g.Ok()
    ensures TableAt(g, img, i, 0)
  {
  }

  lemma NoTables(g: Geo, img: seq<Block>)
    requires g.Ok()
    ensures TablesUpTo(g, img, 0)
  {
  }

  lemma CopiedFirst(g: Geo, img: seq<Block>, first: Block, super: Block)
    requires Copied(g, img, first, super)
    ensures |img| > 1 && img[1] == super
  {
    assert Holds(img, Address(g, 0, SuperBlock), super);
    hide M.DescBlock;
  }

  lemma TableDone(g: Geo, img: seq<Block>, i: nat)
    requires g.Ok() && TablesUpTo(g, img, i) && TableAt(g, img, i, g.descBlocks)
    ensures TablesUpTo(g, img, i + 1)
  {
    hide TableAt;
  }

  /** Blocks inside the regions do not matter. */
  lemma CopiedKept(g: Geo, img: seq<Block>, img': seq<Block>, first: Block, super: Block)
    requires Copied(g, img, first, super) && |img| > g.Blocks() && Outer(g, img') == Outer(g, img)
    ensures Copied(g, img', first, super)
  {
    BootKept(g, img, img');
    hide M.DescBlock, Geo.Ok, Outer, Address;
    forall i: nat | i < g.groups ensures Holds(img', Address(g, i, SuperBlock), super) {
      assert Holds(img, Address(g, i, SuperBlock), super);
      OuterBlock(g, img, img', i, SuperBlock);
    }
    forall i: nat | i < g.groups ensures TableAt(g, img', i, g.descBlocks) {
      assert TableAt(g, img, i, g.descBlocks);
      TableKept(g, img, img', i);
    }
  }

  lemma BootKept(g: Geo, img: seq<Block>, img': seq<Block>)
    requires g.Ok() && |img| > 0 && Outer(g, img') == Outer(g, img)
    ensures |img'| == |img| && img'[0] == img[0]
  {
    assert M.Outside(g, 0);
    assert |Outer(g, img)| == |Outer(g, img')|;
    assert Outer(g, img)[0] == Outer(g, img')[0];
  }

  lemma OuterBlock(g: Geo, img: seq<Block>, img': seq<Block>, i: nat, r: Region)
    requires g.Ok() && |img| > g.Blocks() && Outer(g, img') == Outer(g, img) && i < g.groups && RegionOk(g, r)
    requires r.SuperBlock? || r.DescTable?
    ensures Address(g, i, r) < |img'| == |img| && img'[Address(g, i, r)] == img[Address(g, i, r)]
  {
    AddressLocated(g, i, r);
    assert M.Outside(g, Address(g, i, r));
    assert Outer(g, img)[Address(g, i, r)] == Outer(g, img')[Address(g, i, r)];
  }

  lemma TableKept(g: Geo, img: seq<Block>, img': seq<Block>, i: nat)
    requires g.Ok() && |img| > g.Blocks() && Outer(g, img') == Outer(g, img) && i < g.groups
    requires TableAt(g, img, i, g.descBlocks)
    ensures TableAt(g, img', i, g.descBlocks)
  {
    hide M.DescBlock, Geo.Ok, Outer, Address;
    forall k: nat | k < g.descBlocks ensures Holds(img', Address(g, i, DescTable(k)), M.DescBlock(g, k)) {
      assert Holds(img, Address(g, i, DescTable(k)), M.DescBlock(g, k));
      OuterBlock(g, img, img', i, DescTable(k));
    }
  }

  // ----- the same by location -----

  /** The block `k` blocks behind the start of group `i` is as in group 0. */
  predicate Alike(g: Geo, img: seq<Block>, i: nat, k: nat) {
    && i * g.blocksPerGroup + 1 + k < |img| && 1 + k < |img|
    && img[i * g.blocksPerGroup + 1 + k] == img[1 + k]
  }

  /** Every group begins with the super block and the descriptors of group 0. */
  ghost predicate EveryGroupAlike(g: Geo, img: seq<Block>) {
    forall i: nat, k: nat :: i < g.groups && k < 1 + g.descBlocks ==> Alike(g, img, i, k)
  }

  /** The descriptor of group `j` names the blocks that are its block bitmap, inode bitmap and inode table. */
  ghost predicate DescribesGroup(g: Geo, img: seq<Block>, j: nat)
    requires g.Ok()
  {
    var b, o := 2 + 32 * j / BLOCK_SIZE, 32 * j % BLOCK_SIZE;
    && b < |img| && o + 12 <= BLOCK_SIZE
    && var bitmap, inodes, table := Le32(img[b], o), Le32(img[b], o + 4), Le32(img[b], o + 8);
       && 1 <= bitmap <= g.Blocks() && Locate(g, bitmap) == (j, BlockBitmap)
       && 1 <= inodes <= g.Blocks() && Locate(g, inodes) == (j, InodeBitmap)
       && 1 <= table <= g.Blocks() && Locate(g, table) == (j, InodeTable(0))
  }

  lemma AlikeAt(g: Geo, img: seq<Block>, first: Block, super: Block, i: nat, k: nat)
    requires Copied(g, img, first, super) && i < g.groups && k < 1 + g.descBlocks
    ensures Alike(g, img, i, k)
  {
    hide M.DescBlock, Geo.Ok;
    assert BlockBase(g, 0) == 0 && BlockBase(g, i) == i * g.blocksPerGroup;
    if k == 0 {
      assert Holds(img, Address(g, 0, SuperBlock), super) && Holds(img, Address(g, i, SuperBlock), super);
    } else {
      assert TableAt(g, img, 0, g.descBlocks) && TableAt(g, img, i, g.descBlocks);
      assert Holds(img, Address(g, 0, DescTable(k - 1)), M.DescBlock(g, k - 1));
      assert Holds(img, Address(g, i, DescTable(k - 1)), M.DescBlock(g, k - 1));
    }
  }

  lemma DescWordRead(g: Geo, k: nat, w: nat)
    requires g.Ok() && w < POINTERS_PER_BLOCK && Word(M.DescWord(g, POINTERS_PER_BLOCK * k + w))
    ensures Le32(M.DescBlock(g, k), 4 * w) == M.DescWord(g, POINTERS_PER_BLOCK * k + w)
  {
    var ws := seq<nat>(POINTERS_PER_BLOCK,
                       j requires 0 <= j < POINTERS_PER_BLOCK => M.DescWord(g, POINTERS_PER_BLOCK * k + j));
    hide M.DescWord, WordBytes, Le32, Splice, Geo.Ok;
    WordRoundTrip(M.DescBlock(g, k), 0, ws, w);
    assert Splice(M.DescBlock(g, k), 0, WordBytes(ws)) == M.DescBlock(g, k);
  }

  lemma DescWordField(g: Geo, j: nat, field: nat)
    requires g.Ok() && j < g.groups && field < 3
    ensures M.DescWord(g, 8 * j + field)
            == if field == 0 then BlockBitmapIndex(g, j)
               else if field == 1 then InodeBitmapIndex(g, j) else InodeTableIndex(g, j)
  {
    assert (8 * j + field) / 8 == j && (8 * j + field) % 8 == field;
    hide BlockBitmapIndex, InodeBitmapIndex, InodeTableIndex, Geo.Ok;
  }

  /** Group `j` is described by words `8 * (j % 32)` to `8 * (j % 32) + 2` of block `j / 32` of the table. */
  lemma DescWordsAre(g: Geo, j: nat)
    requires g.Ok() && j < g.groups
    ensures var k, w := j / 32, 8 * (j % 32);
            && w + 2 < POINTERS_PER_BLOCK && M.DescWord(g, POINTERS_PER_BLOCK * k + w) == BlockBitmapIndex(g, j)
            && M.DescWord(g, POINTERS_PER_BLOCK * k + (w + 1)) == InodeBitmapIndex(g, j)
            && M.DescWord(g, POINTERS_PER_BLOCK * k + (w + 2)) == InodeTableIndex(g, j)
  {
    hide M.DescWord, BlockBitmapIndex, InodeBitmapIndex, InodeTableIndex, Geo.Ok;
    DescWordField(g, j, 0);
    DescWordField(g, j, 1);
    DescWordField(g, j, 2);
    assert POINTERS_PER_BLOCK * (j / 32) + 8 * (j % 32) == 8 * j;
  }

  lemma IndexesFit(g: Geo, j: nat)
    requires g.Ok() && j < g.groups
    ensures Word(BlockBitmapIndex(g, j)) && Word(InodeBitmapIndex(g, j)) && Word(InodeTableIndex(g, j))
  {
    InnerBlock(g, j, BlockBitmap);
    InnerBlock(g, j, InodeBitmap);
    InodeTableIn(g, j);
    hide M.Outside, Locate;
  }

  lemma TableHasRoom(g: Geo, j: nat)
    requires g.Ok() && j < g.groups
    ensures j / 32 < g.descBlocks && 32 * j / BLOCK_SIZE == j / 32 && 32 * j % BLOCK_SIZE == 32 * (j % 32)
  {
    hide Geo.Blocks, Geo.Inodes, Geo.MetaBlocks;
    assert 32 * g.groups <= BLOCK_SIZE * g.descBlocks;
    assert j == 32 * (j / 32) + j % 32;
    DivMod(j / 32, BLOCK_SIZE, 32 * (j % 32));
  }

  /** The words of the descriptor of group `j`. */
  lemma DescWordsOf(g: Geo, j: nat)
    requires g.Ok() && j < g.groups
    ensures 32 * j / BLOCK_SIZE < g.descBlocks
    ensures var block, o := M.DescBlock(g, 32 * j / BLOCK_SIZE), 32 * j % BLOCK_SIZE;
            && o + 12 <= BLOCK_SIZE && Le32(block, o) == BlockBitmapIndex(g, j)
            && Le32(block, o + 4) == InodeBitmapIndex(g, j) && Le32(block, o + 8) == InodeTableIndex(g, j)
  {
    hide M.DescBlock, M.DescWord, Le32, Geo.Ok, BlockBitmapIndex, InodeBitmapIndex, InodeTableIndex;
    TableHasRoom(g, j);
    DescWordsAre(g, j);
    IndexesFit(g, j);
    var k, w := j / 32, 8 * (j % 32);
    DescWordRead(g, k, w);
    DescWordRead(g, k, w + 1);
    DescWordRead(g, k, w + 2);
  }

  /** The inode table has at least one block. */
  lemma InodeTableIn(g: Geo, j: nat)
    requires g.Ok() && j < g.groups
    ensures RegionOk(g, InodeTable(0))
    ensures 1 <= InodeTableIndex(g, j) <= g.Blocks() && Locate(g, InodeTableIndex(g, j)) == (j, InodeTable(0))
  {
    assert g.tableBlocks >= 1;
    AddressLocated(g, j, InodeTable(0));
  }

  lemma GroupDescribed(g: Geo, img: seq<Block>, first: Block, super: Block, j: nat)
    requires Copied(g, img, first, super) && j < g.groups
    ensures DescribesGroup(g, img, j)
  {
    hide M.DescBlock, Le32, Geo.Ok, Locate, SupersUpTo;
    DescWordsOf(g, j);
    var k := 32 * j / BLOCK_SIZE;
    assert TableAt(g, img, 0, g.descBlocks) && BlockBase(g, 0) == 0;
    assert Holds(img, Address(g, 0, DescTable(k)), M.DescBlock(g, k)) && Address(g, 0, DescTable(k)) == 2 + k;
    AddressLocated(g, j, BlockBitmap);
    AddressLocated(g, j, InodeBitmap);
    InodeTableIn(g, j);
  }

  /** What formatting writes, seen from outside: by block numbers and by where the descriptors point. */
  lemma CopiedMeans(g: Geo, img: seq<Block>, first: Block, super: Block)
    requires Copied(g, img, first, super)
    ensures |img| > 1 && img[0] == first && img[1] == super && EveryGroupAlike(g, img)
    ensures forall j: nat :: j < g.groups ==> DescribesGroup(g, img, j)
  {
    assert Holds(img, Address(g, 0, SuperBlock), super) && BlockBase(g, 0) == 0;
    hide Geo.Ok, TablesUpTo, SupersUpTo, DescribesGroup, Alike;
    forall i: nat, k: nat | i < g.groups && k < 1 + g.descBlocks ensures Alike(g, img, i, k) {
      AlikeAt(g, img, first, super, i, k);
    }
    forall j: nat | j < g.groups ensures DescribesGroup(g, img, j) {
      GroupDescribed(g, img, first, super, j);
    }
  }
}
