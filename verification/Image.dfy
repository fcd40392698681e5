/** What the blocks of a disk mean as a file system, and what writing one of them means. */
module Image {
  import opened Bytes
  import opened Geometry
  import opened Inodes
  import opened Fs
  import BitMap

  /** A disk image that holds all full groups. */
  predicate Fits(g: Geo, img: seq<Block>) {
    g.Ok() && |img| > g.Blocks()
  }

  /** The bitmap of group `i`, cut out of its block. */
  function GroupBits(g: Geo, img: seq<Block>, i: nat): (bits: seq<bool>)
    requires Fits(g, img) && i < g.groups
    ensures |bits| == g.blocksPerGroup
  {
    AddressLocated(g, i, BlockBitmap);
    BitMap.Bits(img[BlockBitmapIndex(g, i)], g.blocksPerGroup)
  }

  function GroupInodeBits(g: Geo, img: seq<Block>, i: nat): (bits: seq<bool>)
    requires Fits(g, img) && i < g.groups
    ensures |bits| == g.inodesPerGroup
  {
    AddressLocated(g, i, InodeBitmap);
    BitMap.Bits(img[InodeBitmapIndex(g, i)], g.inodesPerGroup)
  }

  function InodeIn(g: Geo, img: seq<Block>, ino: nat): Inode
    requires Fits(g, img) && 1 <= ino <= g.Inodes()
  {
    InodePlaceInTable(g, ino);
    SlotInode(img[InodePlace(g, ino).0], InodePlace(g, ino).1)
  }

  function BlockBitAt(g: Geo, img: seq<Block>, j: nat): bool
    requires Fits(g, img) && j < g.Blocks()
  {
    var (i, k) := Cut(j, g.blocksPerGroup, g.groups);
    GroupBits(g, img, i)[k]
  }

  function InodeBitAt(g: Geo, img: seq<Block>, j: nat): bool
    requires Fits(g, img) && j < g.Inodes()
  {
    var (i, k) := Cut(j, g.inodesPerGroup, g.groups);
    GroupInodeBits(g, img, i)[k]
  }

  function InodeAt(g: Geo, img: seq<Block>, j: nat): Inode
    requires Fits(g, img) && j < g.Inodes()
  {
    InodeIn(g, img, j + 1)
  }

  /** The file system that a disk image holds. */
  function Abs(g: Geo, img: seq<Block>): (fs: Fs)
    requires Fits(g, img)
    ensures fs.g == g && |fs.blockBits| == g.Blocks() && |fs.inodeBits| == |fs.inodes| == g.Inodes()
  {
    Fs(g, img[1],
       seq(g.Blocks(), j requires 0 <= j < g.Blocks() => BlockBitAt(g, img, j)),
       seq(g.Inodes(), j requires 0 <= j < g.Inodes() => InodeBitAt(g, img, j)),
       seq(g.Inodes(), j requires 0 <= j < g.Inodes() => InodeAt(g, img, j)),
       map b | 1 <= b <= g.Blocks() && Locate(g, b).1.Data? :: img[b])
  }

  lemma AbsOk(g: Geo, img: seq<Block>)
    requires Fits(g, img)
    ensures Ok(Abs(g, img))
  {
  }

  // ----- reading regions -----

  lemma GroupBitsMean(g: Geo, img: seq<Block>, i: nat)
    requires Fits(g, img) && i < g.groups
    ensures BlockBase(g, i) + g.blocksPerGroup <= g.Blocks()
    ensures Abs(g, img).blockBits[BlockBase(g, i)..BlockBase(g, i) + g.blocksPerGroup] == GroupBits(g, img, i)
  {
    GroupWithin(g, i);
    forall k | 0 <= k < g.blocksPerGroup
      ensures BlockBitAt(g, img, BlockBase(g, i) + k) == GroupBits(g, img, i)[k]
    {
      DivMod(i, g.blocksPerGroup, k);
    }
    hide GroupBits;
  }

  lemma GroupInodeBitsMean(g: Geo, img: seq<Block>, i: nat)
    requires Fits(g, img) && i < g.groups
    ensures InodeBase(g, i) + g.inodesPerGroup <= g.Inodes()
    ensures Abs(g, img).inodeBits[InodeBase(g, i)..InodeBase(g, i) + g.inodesPerGroup]
            == GroupInodeBits(g, img, i)
  {
    GroupWithin(g, i);
    hide Geo.Ok;
    forall k | 0 <= k < g.inodesPerGroup
      ensures InodeBitAt(g, img, InodeBase(g, i) + k) == GroupInodeBits(g, img, i)[k]
    {
      DivMod(i, g.inodesPerGroup, k);
    }
    hide GroupInodeBits;
  }

  // ----- writing regions -----

  /** Two images whose blocks agree in a region mean the same there. */
  lemma SameBlockBits(g: Geo, img: seq<Block>, img': seq<Block>)
    requires Fits(g, img) && Fits(g, img')
    requires forall i :: 0 <= i < g.groups ==> GroupBits(g, img, i) == GroupBits(g, img', i)
    ensures Abs(g, img).blockBits == Abs(g, img').blockBits
  {
    hide GroupBits;
    forall j | 0 <= j < g.Blocks() ensures BlockBitAt(g, img, j) == BlockBitAt(g, img', j) {
      DivBound(j, g.blocksPerGroup, g.groups);
    }
  }

  lemma SameInodeBits(g: Geo, img: seq<Block>, img': seq<Block>)
    requires Fits(g, img) && Fits(g, img')
    requires forall i :: 0 <= i < g.groups ==> GroupInodeBits(g, img, i) == GroupInodeBits(g, img', i)
    ensures Abs(g, img).inodeBits == Abs(g, img').inodeBits
  {
    hide GroupInodeBits, Geo.Ok;
    forall j | 0 <= j < g.Inodes() ensures InodeBitAt(g, img, j) == InodeBitAt(g, img', j) {
      DivBound(j, g.inodesPerGroup, g.groups);
    }
  }

  /** The region a block belongs to; `None` for the boot block and whatever follows the last full group. */
  function RegionOf(g: Geo, b: nat): Option<Region>
    requires g.Ok()
  {
    if 1 <= b <= g.Blocks() then Some(Locate(g, b).1) else None
  }

  /** A block is addressed as a piece of a group exactly by its own region. */
  lemma Addressed(g: Geo, i: nat, r: Region, b: nat)
    requires g.Ok() && i < g.groups && RegionOk(g, r)
    ensures Address(g, i, r) == b ==> RegionOf(g, b) == Some(r)
  {
    AddressLocated(g, i, r);
  }

  lemma BlockBitsKept(g: Geo, img: seq<Block>, b: nat, block: Block)
    requires Fits(g, img) && b < |img| && RegionOf(g, b) != Some(BlockBitmap)
    ensures Abs(g, img[b := block]).blockBits == Abs(g, img).blockBits
  {
    forall i: nat | i < g.groups ensures GroupBits(g, img, i) == GroupBits(g, img[b := block], i) {
      Addressed(g, i, BlockBitmap, b);
    }
    SameBlockBits(g, img, img[b := block]);
  }

  lemma InodeBitsKept(g: Geo, img: seq<Block>, b: nat, block: Block)
    requires Fits(g, img) && b < |img| && RegionOf(g, b) != Some(InodeBitmap)
    ensures Abs(g, img[b := block]).inodeBits == Abs(g, img).inodeBits
  {
    forall i: nat | i < g.groups ensures GroupInodeBits(g, img, i) == GroupInodeBits(g, img[b := block], i) {
      Addressed(g, i, InodeBitmap, b);
    }
    SameInodeBits(g, img, img[b := block]);
  }

  lemma InodesKept(g: Geo, img: seq<Block>, b: nat, block: Block)
    requires Fits(g, img) && b < |img|
    requires RegionOf(g, b).Some? ==> !RegionOf(g, b).value.InodeTable?
    ensures Abs(g, img[b := block]).inodes == Abs(g, img).inodes
  {
    forall j | 0 <= j < g.Inodes() ensures InodeAt(g, img, j) == InodeAt(g, img[b := block], j) {
      InodePlaceInTable(g, j + 1);
    }
    hide InodeAt, InodeIn;
  }

  /** Writing a data block changes that block's data. */
  lemma WriteData(g: Geo, img: seq<Block>, b: nat, block: Block)
    requires Fits(g, img) && IsData(g, b)
    ensures Abs(g, img[b := block]) == PutData(Abs(g, img), b, block)
  {
    BlockBitsKept(g, img, b, block);
    InodeBitsKept(g, img, b, block);
    InodesKept(g, img, b, block);
    hide BlockBitAt, InodeBitAt, InodeAt, InodeIn;
    assert Abs(g, img[b := block]).data == Abs(g, img).data[b := block];
  }

  /** Writing a block bitmap changes the bits of its own group. */
  lemma WriteBlockBits(g: Geo, img: seq<Block>, i: nat, block: Block)
    requires Fits(g, img) && i < g.groups
    ensures BlockBitmapIndex(g, i) < |img| && BlockBase(g, i) + g.blocksPerGroup <= g.Blocks()
    ensures Abs(g, img[BlockBitmapIndex(g, i) := block])
            == Abs(g, img).(blockBits := Splice(Abs(g, img).blockBits, BlockBase(g, i),
                                                BitMap.Bits(block, g.blocksPerGroup)))
  {
    var b := BlockBitmapIndex(g, i);
    GroupWithin(g, i);
    AddressLocated(g, i, BlockBitmap);
    InodeBitsKept(g, img, b, block);
    InodesKept(g, img, b, block);
    BlockBitsSpliced(g, img, i, block);
    hide BlockBitAt, InodeBitAt, InodeAt, InodeIn, BitMap.Bits;
  }

  lemma BlockBitsSpliced(g: Geo, img: seq<Block>, i: nat, block: Block)
    requires Fits(g, img) && i < g.groups && BlockBitmapIndex(g, i) < |img|
    requires BlockBase(g, i) + g.blocksPerGroup <= g.Blocks()
    ensures Abs(g, img[BlockBitmapIndex(g, i) := block]).blockBits
            == Splice(Abs(g, img).blockBits, BlockBase(g, i), BitMap.Bits(block, g.blocksPerGroup))
  {
    var b := BlockBitmapIndex(g, i);
    var img' := img[b := block];
    var spliced := Splice(Abs(g, img).blockBits, BlockBase(g, i), BitMap.Bits(block, g.blocksPerGroup));
    AddressLocated(g, i, BlockBitmap);
    hide BitMap.Bits, Geo.Ok;
    forall j | 0 <= j < g.Blocks() ensures BlockBitAt(g, img', j) == spliced[j] {
      var (i', k) := Cut(j, g.blocksPerGroup, g.groups);
      AddressLocated(g, i', BlockBitmap);
      GroupRange(i, i', k, g.blocksPerGroup);
      if i' != i {
        assert BlockBitmapIndex(g, i') != b;
      }
    }
  }

  lemma GroupRange(i: nat, i': nat, k: nat, d: nat)
    requires k < d
    ensures i * d <= i' * d + k < i * d + d <==> i' == i
  {
    Multiple(d, i' - i);
    assert i' * d - i * d == d * (i' - i);
  }

  /** Writing an inode bitmap changes the bits of its own group. */
  lemma WriteInodeBits(g: Geo, img: seq<Block>, i: nat, block: Block)
    requires Fits(g, img) && i < g.groups
    ensures InodeBitmapIndex(g, i) < |img| && InodeBase(g, i) + g.inodesPerGroup <= g.Inodes()
    ensures Abs(g, img[InodeBitmapIndex(g, i) := block])
            == Abs(g, img).(inodeBits := Splice(Abs(g, img).inodeBits, InodeBase(g, i),
                                                BitMap.Bits(block, g.inodesPerGroup)))
  {
    var b := InodeBitmapIndex(g, i);
    GroupWithin(g, i);
    AddressLocated(g, i, InodeBitmap);
    BlockBitsKept(g, img, b, block);
    InodesKept(g, img, b, block);
    InodeBitsSpliced(g, img, i, block);
    hide BlockBitAt, InodeBitAt, InodeAt, InodeIn, BitMap.Bits;
  }

  lemma InodeBitsSpliced(g: Geo, img: seq<Block>, i: nat, block: Block)
    requires Fits(g, img) && i < g.groups && InodeBitmapIndex(g, i) < |img|
    requires InodeBase(g, i) + g.inodesPerGroup <= g.Inodes()
    ensures Abs(g, img[InodeBitmapIndex(g, i) := block]).inodeBits
            == Splice(Abs(g, img).inodeBits, InodeBase(g, i), BitMap.Bits(block, g.inodesPerGroup))
  {
    var b := InodeBitmapIndex(g, i);
    var img' := img[b := block];
    var spliced := Splice(Abs(g, img).inodeBits, InodeBase(g, i), BitMap.Bits(block, g.inodesPerGroup));
    AddressLocated(g, i, InodeBitmap);
    hide BitMap.Bits, Geo.Ok;
    forall j | 0 <= j < g.Inodes() ensures InodeBitAt(g, img', j) == spliced[j] {
      var (i', k) := Cut(j, g.inodesPerGroup, g.groups);
      AddressLocated(g, i', InodeBitmap);
      GroupRange(i, i', k, g.inodesPerGroup);
      if i' != i {
        assert InodeBitmapIndex(g, i') != b;
      }
    }
  }

  /** The block that `write_inode` writes. */
  function InodeBlock(g: Geo, img: seq<Block>, ino: nat, x: Inode): Block
    requires Fits(g, img) && 1 <= ino <= g.Inodes() && InodeOk(x)
  {
    InodePlaceInTable(g, ino);
    WithSlot(img[InodePlace(g, ino).0], InodePlace(g, ino).1, x)
  }

  /** Writing an inode's slot changes that inode and no other, although eight share a block. */
  lemma WriteInode(g: Geo, img: seq<Block>, ino: nat, x: Inode)
    requires Fits(g, img) && 1 <= ino <= g.Inodes() && InodeOk(x)
    ensures InodePlace(g, ino).0 < |img|
    ensures Abs(g, img[InodePlace(g, ino).0 := InodeBlock(g, img, ino, x)]) == PutInode(Abs(g, img), ino, x)
  {
    var b, block := InodePlace(g, ino).0, InodeBlock(g, img, ino, x);
    InodePlaceInTable(g, ino);
    BlockBitsKept(g, img, b, block);
    InodeBitsKept(g, img, b, block);
    InodesUpdated(g, img, ino, x);
    hide BlockBitAt, InodeBitAt, InodeAt, InodeIn, InodeBlock;
  }

  lemma InodesUpdated(g: Geo, img: seq<Block>, ino: nat, x: Inode)
    requires Fits(g, img) && 1 <= ino <= g.Inodes() && InodeOk(x) && InodePlace(g, ino).0 < |img|
    ensures Abs(g, img[InodePlace(g, ino).0 := InodeBlock(g, img, ino, x)]).inodes == Abs(g, img).inodes[ino - 1 := x]
  {
    var img' := img[InodePlace(g, ino).0 := InodeBlock(g, img, ino, x)];
    forall j | 0 <= j < g.Inodes()
      ensures InodeAt(g, img', j) == if j == ino - 1 then x else InodeAt(g, img, j)
    {
      InodeUpdated(g, img, ino, x, j + 1);
    }
    hide InodeAt, InodeIn, InodeBlock;
  }

  lemma InodeUpdated(g: Geo, img: seq<Block>, ino: nat, x: Inode, jno: nat)
    requires Fits(g, img) && 1 <= ino <= g.Inodes() && InodeOk(x) && InodePlace(g, ino).0 < |img|
    requires 1 <= jno <= g.Inodes()
    ensures InodeIn(g, img[InodePlace(g, ino).0 := InodeBlock(g, img, ino, x)], jno)
            == if jno == ino then x else InodeIn(g, img, jno)
  {
    var (b, slot) := InodePlace(g, ino);
    InodePlaceInTable(g, ino);
    InodePlaceInTable(g, jno);
    InodePlaceInjective(g, ino, jno);
    if InodePlace(g, jno).0 == b {
      SlotUpdated(img[b], slot, x, InodePlace(g, jno).1);
    }
    hide SlotInode, WithSlot, Geo.Ok;
  }
}
