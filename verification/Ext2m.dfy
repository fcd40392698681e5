/**
 * The ext2 layer: bitmaps, inodes, block lists and directories, kept on the disk behind the cache.  Every
 * operation is proved to change the file system that the disk means as the functions of module Fs say.
 */
module Ext2m {
  import opened Bytes
  import opened Geometry
  import opened Inodes
  import opened Fs
  import F = Fs
  import opened DirRecords
  import opened Image
  import opened BitMap
  import L = LruModel
  import C = Cache
  import A = Allocation
  import B = DirBlock
  import E = EntryBlock
  import P = PointerTree
  import D = Directories
  import S = SuperBlock
  import M = Formatting
  import N = Creation
  import I = Invariant
  import K = Backups
  import Q = Release

  lemma PaddedBits(block: Block, bytes: seq<byte>, size: nat)
    requires size <= 8 * |bytes| && |bytes| <= BLOCK_SIZE
    ensures Bits(Splice(block, 0, bytes), size) == Bits(bytes, size)
  {
    forall pos: nat | pos < size ensures BitAt(Splice(block, 0, bytes), pos) == BitAt(bytes, pos) {
      assert Splice(block, 0, bytes)[pos / 8] == bytes[pos / 8];
    }
  }

  lemma BlockCount(i: Inode)
    requires InodeOk(i)
    ensures |i.block| == N_BLOCKS
  {
  }

  lemma LevelBound(k: nat)
    requires k < N_BLOCKS
    ensures P.LevelOf(k) < 4
  {
  }

  /** Data blocks pass the assertion on the offset in the group. */
  lemma DataOffset(g: Geo, b: nat)
    requires IsData(g, b)
    ensures 1 <= b <= g.Blocks() && (b - 1) % g.blocksPerGroup >= g.MetaBlocks()
  {
  }

  class Ext2m {
    const disk: C.Cache
    /** The scratch block that almost every operation reads into. */
    const buf: array<byte>
    var geo: Geo
    var firstIno: nat

    ghost function Img(): seq<Block>
      reads disk
    {
      L.View(disk.model)
    }

    /** The blocks of the disk outside all bitmaps, tables and data regions. */
    ghost function Outer(): seq<Block>
      reads this, disk
    {
      K.Outer(geo, Img())
    }

    ghost predicate Ready()
      reads this, disk, disk.disk
    {
      buf.Length == BLOCK_SIZE && disk.Valid()
    }

    /** The file system on the disk, as seen through the cache. */
    ghost var fs: Fs

    ghost predicate OnDisk()
      reads this, disk, disk.disk
    {
      disk.Valid() && Fits(geo, Img()) && fs == Abs(geo, Img())
    }

    ghost predicate Valid()
      reads this, disk, disk.disk
    {
      buf.Length == BLOCK_SIZE && fs.g == geo && F.Ok(fs) && OnDisk()
    }

    /** Valid, with the first ordinary inode number known from the super block. */
    ghost predicate Mounted()
      reads this, disk, disk.disk
    {
      Valid() && firstIno == FIRST_INO
    }

    /** Mounts the disk; one that is not recognised is formatted first. */
    constructor (cache: C.Cache, totalBlocks: nat, now: nat, boot: seq<byte>, rest: seq<byte>)
      requires cache.Valid() && |L.View(cache.model)| == totalBlocks && HasRoom(totalBlocks) && Word(now)
      requires |boot| <= BLOCK_SIZE && |rest| == BLOCK_SIZE - 92
      requires Mountable(L.View(cache.model), totalBlocks, now, rest)
      modifies cache, cache.disk
      ensures Mounted() && disk == cache && fresh(buf)
      ensures fs == AfterMount(old(L.View(cache.model)), totalBlocks, now, rest)
    {
      disk, buf := cache, new byte[BLOCK_SIZE];
      geo, firstIno := Geo(0, 0, 0, 0, 0), 0;
      fs := Fs(Geo(0, 0, 0, 0, 0), ZeroBlock(), [], [], [], map[]);
      new;
      Mount(totalBlocks, now, boot, rest);
    }

    method ReadInto(b: nat, dst: array<byte>)
      requires disk.Valid() && b < |Img()| && dst.Length == BLOCK_SIZE
      modifies dst, disk, disk.disk
      ensures disk.Valid() && Img() == old(Img()) && dst[..] == Img()[b]
    {
      L.ReadBlockKeeps(disk.model, b);
      disk.ReadBlock(b, dst);
    }

    method ReadBlock(b: nat)
      requires Ready() && b < |Img()|
      modifies buf, disk, disk.disk
      ensures Ready() && Img() == old(Img()) && buf[..] == Img()[b]
    {
      ReadInto(b, buf);
    }

    method WriteBlock(b: nat, src: array<byte>)
      requires disk.Valid() && b < |Img()| && src.Length == BLOCK_SIZE
      modifies disk, disk.disk
      ensures disk.Valid() && Img() == old(Img())[b := src[..]]
    {
      L.WriteBlockKeeps(disk.model, b, src[..]);
      disk.WriteBlock(b, src);
    }

    method Clear()
      requires buf.Length == BLOCK_SIZE
      modifies buf
      ensures buf[..] == ZeroBlock()
    {
      Copy(buf, 0, ZeroBlock());
      assert buf[..] == ZeroBlock();
    }

    /** Writing a block, and what the disk means afterwards. */
    method StoreBlock(b: nat, src: array<byte>, ghost fs': Fs)
      requires Valid() && b < |Img()| && src.Length == BLOCK_SIZE && fs' == Abs(geo, Img()[b := src[..]])
      modifies `fs, disk, disk.disk
      ensures Valid() && fs == fs' && Img() == old(Img())[b := src[..]]
    {
      WriteBlock(b, src);
      AbsOk(geo, Img());
      fs := fs';
    }

    // ----- bitmaps -----

    method GetBlockBitmap(i: nat) returns (bm: BitMap)
      requires Valid() && i < geo.groups
      modifies buf, disk, disk.disk
      ensures Valid() && fresh(bm) && fresh(bm.data) && bm.Valid() && bm.sizeInBits == geo.blocksPerGroup
      ensures BlockBase(geo, i) + geo.blocksPerGroup <= |fs.blockBits|
      ensures bm.Content() == fs.blockBits[BlockBase(geo, i)..BlockBase(geo, i) + geo.blocksPerGroup]
      ensures Img() == old(Img())
    {
      AddressLocated(geo, i, BlockBitmap);
      GroupBitsMean(geo, Img(), i);
      ReadBlock(BlockBitmapIndex(geo, i));
      bm := new BitMap(buf[..], geo.blocksPerGroup);
    }

    method WriteBlockBitmap(i: nat, bm: BitMap)
      requires Valid() && i < geo.groups && bm.Valid() && bm.sizeInBits == geo.blocksPerGroup && bm.data != buf
      modifies buf, `fs, disk, disk.disk
      ensures Valid() && BlockBase(geo, i) + geo.blocksPerGroup <= |old(fs).blockBits|
      ensures fs == old(fs).(blockBits := Splice(old(fs).blockBits, BlockBase(geo, i), bm.Content()))
      ensures BlockBitmapIndex(geo, i) < |old(Img())| && Img() == old(Img())[BlockBitmapIndex(geo, i) := buf[..]]
      ensures bm.Content() == Bits(buf[..], geo.blocksPerGroup) && Outer() == old(Outer())
    {
      K.InnerBlock(geo, i, BlockBitmap);
      Clear();
      Copy(buf, 0, bm.data[..]);
      PaddedBits(ZeroBlock(), bm.data[..], geo.blocksPerGroup);
      WriteBlockBits(geo, Img(), i, buf[..]);
      K.OuterKept(geo, Img(), BlockBitmapIndex(geo, i), buf[..]);
      hide M.Outside, K.Outer;
      StoreBlock(BlockBitmapIndex(geo, i), buf, Abs(geo, Img()[BlockBitmapIndex(geo, i) := buf[..]]));
    }

    method GetInodeBitmap(i: nat) returns (bm: BitMap)
      requires Valid() && i < geo.groups
      modifies buf, disk, disk.disk
      ensures Valid() && fresh(bm) && fresh(bm.data) && bm.Valid() && bm.sizeInBits == geo.inodesPerGroup
      ensures InodeBase(geo, i) + geo.inodesPerGroup <= |fs.inodeBits|
      ensures bm.Content() == fs.inodeBits[InodeBase(geo, i)..InodeBase(geo, i) + geo.inodesPerGroup]
      ensures Img() == old(Img())
    {
      AddressLocated(geo, i, InodeBitmap);
      GroupInodeBitsMean(geo, Img(), i);
      ReadBlock(InodeBitmapIndex(geo, i));
      bm := new BitMap(buf[..], geo.inodesPerGroup);
    }

    method WriteInodeBitmap(i: nat, bm: BitMap)
      requires Valid() && i < geo.groups && bm.Valid() && bm.sizeInBits == geo.inodesPerGroup && bm.data != buf
      modifies buf, `fs, disk, disk.disk
      ensures Valid() && InodeBase(geo, i) + geo.inodesPerGroup <= |old(fs).inodeBits|
      ensures fs == old(fs).(inodeBits := Splice(old(fs).inodeBits, InodeBase(geo, i), bm.Content()))
      ensures Outer() == old(Outer())
    {
      K.InnerBlock(geo, i, InodeBitmap);
      Clear();
      Copy(buf, 0, bm.data[..]);
      PaddedBits(ZeroBlock(), bm.data[..], geo.inodesPerGroup);
      WriteInodeBits(geo, Img(), i, buf[..]);
      K.OuterKept(geo, Img(), InodeBitmapIndex(geo, i), buf[..]);
      hide M.Outside, K.Outer;
      StoreBlock(InodeBitmapIndex(geo, i), buf, Abs(geo, Img()[InodeBitmapIndex(geo, i) := buf[..]]));
    }

    // ----- block allocation -----

    /** Takes free blocks of one group until the group or the count is exhausted. */
    method TakeFromGroup(i: nat, bm: BitMap, count: nat, ghost bits: seq<bool>) returns (found: seq<nat>, ghost c: nat)
      requires i < geo.groups && count >= 1
      requires bm.Valid() && bm.sizeInBits == geo.blocksPerGroup
      requires BlockBase(geo, i) + geo.blocksPerGroup <= |bits|
      requires bm.Content() == bits[BlockBase(geo, i)..BlockBase(geo, i) + geo.blocksPerGroup]
      modifies bm.data
      ensures c <= geo.blocksPerGroup && A.Filled(bits, BlockBase(geo, i), bm.Content(), c)
      ensures found == FreeIn(bits, BlockBase(geo, i), BlockBase(geo, i) + c)
      ensures |found| <= count
      ensures |found| < count ==> c == geo.blocksPerGroup
    {
      hide FreeIn, Bits, A.Filled, BlockBase;
      ghost var lo := BlockBase(geo, i);
      found, c := [], 0;
      A.FilledNone(bits, lo, lo + geo.blocksPerGroup);
      var start: Option<nat> := Some(0);
      while start.Some?
        invariant c <= geo.blocksPerGroup && found == FreeIn(bits, lo, lo + c) && |found| < count
        invariant A.Filled(bits, lo, bm.Content(), c)
        invariant start.Some? ==> start.value <= c
        invariant start.None? ==> c == geo.blocksPerGroup
        decreases geo.blocksPerGroup - c, start.Some?
      {
        ghost var content, from := bm.Content(), start.value;
        start := bm.NextBit(start.value, false);
        assert bm.Content() == content;
        if start.Some? {
          var p := start.value;
          A.FilledNext(bits, lo, content, c, from, p);
          found := found + [p + GroupIndex(geo, i)];
          bm.Set(p);
          c := p + 1;
          if |found| == count {
            return;
          }
        } else {
          A.FilledAll(bits, lo, content, c, from);
          c := geo.blocksPerGroup;
        }
      }
    }

    /** One group of the allocation scan: read its bitmap, take what is free, write it back if it changed. */
    method ScanGroup(ghost fs0: Fs, group: nat, i: nat, ghost ret: seq<nat>, count: nat) returns (found: seq<nat>)
      requires Valid() && fs == MarkBlocks(fs0, ret) && A.Scanned(fs0, group, i, ret)
      requires Next(geo, i) != group && count >= 1
      modifies buf, `fs, disk, disk.disk
      ensures Valid() && fs == MarkBlocks(fs0, ret + found) && |found| <= count
      ensures ret + found <= FreeFrom(fs0, group)
      ensures |found| < count ==> A.Scanned(fs0, group, Next(geo, i), ret + found)
      ensures Outer() == old(Outer())
    {
      hide K.Outer, OnDisk, F.Ok, BlockBase, FreeIn, ScanFree, Marked, Splice, A.Filled, FreeFrom;
      A.GroupUntouched(fs0, group, i, ret);
      var bm := GetBlockBitmap(i);
      ghost var c;
      found, c := TakeFromGroup(i, bm, count, fs0.blockBits);
      A.ScanMarks(fs0, group, i, ret, c, bm.Content());
      A.ScanGroup(fs0, group, i, ret, c);
      if found != [] {
        WriteBlockBitmap(i, bm);
      } else {
        assert ret + found == ret;
      }
    }

    /** Finds free blocks, in the group of the hint first, then in the following groups, and marks them. */
    method Ballocs(group: nat, count: nat) returns (ret: seq<nat>)
      requires Valid() && CanAllocate(fs, group, count)
      modifies buf, `fs, disk, disk.disk
      ensures Valid() && (ret, fs) == F.Ballocs(old(fs), group, count) && Outer() == old(Outer())
    {
      hide K.Outer, OnDisk, F.Ok, FreeIn, ScanFree, A.Scanned, Geo.Ok, Marked, FreeFrom;
      ghost var fs0 := fs;
      ret := [];
      A.ScanStarts(fs0, group);
      var i: nat := group;
      while Next(geo, i) != group
        invariant Valid() && group < geo.groups && i < geo.groups && Outer() == old(Outer())
        invariant A.Scanned(fs0, group, i, ret) && fs == MarkBlocks(fs0, ret) && |ret| < count
        decreases geo.groups - A.Distance(geo, group, i)
      {
        var found := ScanGroup(fs0, group, i, ret, count - |ret|);
        ret := ret + found;
        if |ret| == count {
          assert ret == FreeFrom(fs0, group)[..count];
          return;
        }
        A.NextGroup(geo, group, i);
        i := Next(geo, i);
      }
      A.ScanEnds(fs0, group, i, ret);
      assert false;
    }

    /** Frees a block: finds its group and bit by division and clears the bit.  There is no block 0 to free. */
    method Bfree(b: nat)
      requires Valid() && b <= |fs.blockBits|
      requires b != 0 ==> (b - 1) % geo.blocksPerGroup >= geo.MetaBlocks()
      modifies buf, `fs, disk, disk.disk
      ensures Valid() && fs == F.Bfree(old(fs), b)
    {
      if b == 0 {
        return;
      }
      hide OnDisk, Bits, Splice, L.View;
      var (group, offset) := Cut(b - 1, geo.blocksPerGroup, geo.groups);
      assert BlockBase(geo, group) + offset == b - 1;
      hide F.Ok, BlockBase, Geo.Ok, Cut;
      var bm := GetBlockBitmap(group);
      A.SpliceBit(fs.blockBits, BlockBase(geo, group), bm.Content(), offset);
      bm.Reset(offset);
      WriteBlockBitmap(group, bm);
    }

    // ----- inode allocation -----

    /** Sets a bit of an inode bitmap and writes it back. */
    method TakeInodeBit(i: nat, bm: BitMap, p: nat)
      requires Valid() && i < geo.groups && p < geo.inodesPerGroup && bm.data != buf
      requires bm.Valid() && bm.sizeInBits == geo.inodesPerGroup
          && InodeBase(geo, i) + geo.inodesPerGroup <= |fs.inodeBits|
      requires bm.Content() == fs.inodeBits[InodeBase(geo, i)..InodeBase(geo, i) + geo.inodesPerGroup]
      modifies bm.data, buf, `fs, disk, disk.disk
      ensures Valid() && fs == old(fs).(inodeBits := old(fs).inodeBits[InodeBase(geo, i) + p := true])
    {
      hide OnDisk, F.Ok, Geo.Ok, Bits, Splice, InodeBase;
      A.SpliceBit(fs.inodeBits, InodeBase(geo, i), bm.Content(), p);
      bm.Set(p);
      WriteInodeBitmap(i, bm);
    }

    /** Looks for a free inode of one group, from number 11 on, and sets its bit. */
    method IallocIn(i: nat) returns (ino: nat)
      requires Mounted() && i < geo.groups && A.TakenUpTo(fs.inodeBits, InodeBase(geo, i))
      modifies buf, `fs, disk, disk.disk
      ensures Valid()
      ensures ino == 0 ==> fs == old(fs) && A.TakenUpTo(fs.inodeBits, InodeBase(geo, i) + geo.inodesPerGroup)
      ensures ino != 0 ==> (ino, fs) == F.Ialloc(old(fs))
    {
      hide OnDisk, F.Ok, Geo.Ok, Bits, NextFreeInode, A.TakenUpTo, Splice, L.View, F.Ialloc;
      ghost var lo := InodeBase(geo, i);
      var first := i * geo.inodesPerGroup + 1;
      assert first == lo + 1;
      hide InodeBase;
      var bm := GetInodeBitmap(i);
      ghost var content := bm.Content();
      var start: Option<nat> := Some(0);
      while start.Some?
        invariant Valid() && fs == old(fs) && bm.Content() == content
        invariant start.Some? ==> start.value <= geo.inodesPerGroup && A.TakenUpTo(fs.inodeBits, lo + start.value)
        invariant start.None? ==> A.TakenUpTo(fs.inodeBits, lo + geo.inodesPerGroup)
        decreases start.Some?, if start.Some? then geo.inodesPerGroup - start.value else 0
      {
        ghost var from := start.value;
        start := bm.NextBit(start.value, false);
        assert bm.Content() == content;
        A.TakenMore(fs.inodeBits, lo, content, from, if start.Some? then start.value else geo.inodesPerGroup);
        if start.Some? {
          var p := start.value;
          if p + first < firstIno {
            start := Some(p + 1);
          } else {
            A.IallocFinds(fs, p + first);
            TakeInodeBit(i, bm, p);
            return p + first;
          }
        }
      }
      ino := 0;
    }

    /** The lowest inode number from 11 on whose bit is clear, which is then set; 0 if there is none. */
    method Ialloc() returns (ino: nat)
      requires Mounted()
      modifies buf, `fs, disk, disk.disk
      ensures Valid() && (ino, fs) == F.Ialloc(old(fs))
    {
      hide OnDisk, NextFreeInode;
      for i := 0 to geo.groups
        invariant Valid() && fs == old(fs)
        invariant A.TakenUpTo(fs.inodeBits, InodeBase(geo, i))
      {
        ino := IallocIn(i);
        if ino != 0 {
          return;
        }
        assert InodeBase(geo, i + 1) == InodeBase(geo, i) + geo.inodesPerGroup;
      }
      A.NoFreeInode(fs.inodeBits);
      ino := 0;
    }

    // ----- data blocks -----

    /** Reads a block of a data region into any buffer. */
    method ReadData(b: nat, dst: array<byte>)
      requires Valid() && b in fs.data && dst.Length == BLOCK_SIZE
      modifies dst, disk, disk.disk
      ensures Valid() && dst[..] == fs.data[b]
    {
      ReadInto(b, dst);
    }

    /** Writes a buffer to a block of a data region. */
    method WriteData(b: nat, src: array<byte>)
      requires Valid() && b in fs.data && src.Length == BLOCK_SIZE
      modifies `fs, disk, disk.disk
      ensures Valid() && fs == PutData(old(fs), b, src[..]) && Outer() == old(Outer())
    {
      K.DataInner(geo, b);
      K.OuterKept(geo, Img(), b, src[..]);
      hide M.Outside, K.Outer;
      Image.WriteData(geo, Img(), b, src[..]);
      StoreBlock(b, src, PutData(fs, b, src[..]));
    }

    // ----- inodes -----

    /** Reads the table block that holds the inode, and computes the block and the slot. */
    method ReadTableBlock(ino: nat) returns (b: nat, slot: nat)
      requires Valid() && IsInode(fs, ino)
      modifies buf, disk, disk.disk
      ensures Valid() && Img() == old(Img()) && geo.Ok() && (b, slot) == InodePlace(geo, ino)
      ensures b < |Img()| && slot < INODES_PER_BLOCK && buf[..] == Img()[b]
    {
      InodePlaceInTable(geo, ino);
      hide Abs;
      var group, ind := (ino - 1) / geo.inodesPerGroup, (ino - 1) % geo.inodesPerGroup;
      assert group < geo.groups;
      b, slot := InodeTableIndex(geo, group) + ind / INODES_PER_BLOCK, ind % INODES_PER_BLOCK;
      ReadBlock(b);
    }

    method GetInode(ino: nat) returns (i: Inode)
      requires Valid() && IsInode(fs, ino)
      modifies buf, disk, disk.disk
      ensures Valid() && i == F.GetInode(fs, ino) && InodeOk(i)
    {
      assert F.GetInode(fs, ino) == InodeAt(geo, Img(), ino - 1);
      hide Abs, InodePlace, SlotInode, InodeOk;
      var b, slot := ReadTableBlock(ino);
      i := SlotInode(buf[..], slot);
    }

    method WriteInode(ino: nat, i: Inode)
      requires Valid() && IsInode(fs, ino) && InodeOk(i)
      modifies buf, `fs, disk, disk.disk
      ensures Valid() && fs == PutInode(old(fs), ino, i) && Outer() == old(Outer())
    {
      hide M.Outside, K.Outer;
      Image.WriteInode(geo, Img(), ino, i);
      K.TableInner(geo, ino);
      hide Abs, InodePlace, InodeOk, Splice, WordBytes, ToWords, InodeIn, Geo.Ok;
      var b, slot := ReadTableBlock(ino);
      Copy(buf, INODE_SIZE * slot, WordBytes(ToWords(i)));
      K.OuterKept(geo, Img(), b, buf[..]);
      StoreBlock(b, buf, PutInode(fs, ino, i));
    }

    /** Collects the blocks below `b`; the pointer blocks are read into buffers of their own. */
    method AllBlocksBelow(b: nat, level: nat, arr: seq<nat>) returns (flag: bool, arr': seq<nat>)
      requires Valid() && level < 4 && TreeOk(fs, b, level)
      modifies disk, disk.disk
      ensures Valid() && (flag, arr') == P.Walk(PointerMap(fs), b, level, arr)
      decreases level
    {
      hide OnDisk, F.Ok, TreeOk, Le32, Pointers;
      if b == 0 {
        return false, arr;
      }
      if level == 0 {
        return true, arr + [b];
      }
      Child(fs, b, level, 0);
      var mbuf := new byte[BLOCK_SIZE];
      ReadData(b, mbuf);
      ghost var pointers := Pointers(fs, b);
      flag, arr' := true, arr;
      for k := 0 to POINTERS_PER_BLOCK
        invariant Valid() && mbuf[..] == fs.data[b]
        invariant flag && P.WalkFrom(PointerMap(fs), pointers, k, level - 1, arr')
            == P.Walk(PointerMap(fs), b, level, arr)
      {
        var bn := Le32(mbuf[..], 4 * k);
        Child(fs, b, level, k);
        flag, arr' := AllBlocksBelow(bn, level - 1, arr');
        if !flag {
          return;
        }
      }
    }

    method AllBlocks(ino: nat) returns (arr: seq<nat>)
      requires Valid() && IsInode(fs, ino) && TreesOk(fs, F.GetInode(fs, ino))
      modifies buf, disk, disk.disk
      ensures Valid() && arr == F.AllBlocks(fs, ino)
    {
      hide OnDisk, F.Ok, TreeOk, TreesOk, P.Walk, P.LevelOf, InodeOk;
      var inode := GetInode(ino);
      assert |inode.block| == N_BLOCKS by { BlockCount(inode); }
      arr := [];
      for i := 0 to N_BLOCKS
        invariant Valid()
        invariant P.WalkRoots(PointerMap(fs), inode.block, i, arr) == F.AllBlocks(fs, ino)
      {
        var flag;
        RootTree(fs, inode, i);
        LevelBound(i);
        flag, arr := AllBlocksBelow(inode.block[i], P.LevelOf(i), arr);
        if !flag {
          break;
        }
      }
    }

    /** Allocates a block for the first zero pointer. */
    method TakeBlock(ino: nat, inode: Inode, i: nat) returns (n: nat)
      requires Valid() && CanAddBlock(fs, ino) && inode == F.GetInode(fs, ino) && i == |Direct(inode)|
      modifies buf, `fs, disk, disk.disk
      ensures Valid() && (n, fs) == F.AddBlock(old(fs), ino)
    {
      var group := ino / geo.inodesPerGroup;
      A.FreeFromBounds(fs, group, 0);
      hide OnDisk, F.Ok, Geo.Ok, FreeFrom, Direct, Marked, InodeOk;
      var found := Ballocs(group, 1);
      n := found[0];
      assert found == [n];
      WriteInode(ino, inode.(block := inode.block[i := n]));
    }

    /** Gives the inode one more direct block. */
    method AddBlockToInode(ino: nat) returns (n: nat)
      requires Valid() && CanAddBlock(fs, ino)
      modifies buf, `fs, disk, disk.disk
      ensures Valid() && (n, fs) == F.AddBlock(old(fs), ino)
    {
      FirstZero(F.GetInode(fs, ino));
      hide OnDisk, F.Ok, Geo.Ok, Direct, InodeOk, F.AddBlock;
      var inode := GetInode(ino);
      for i := 0 to DIRECT_BLOCKS
        invariant Valid() && fs == old(fs) && i <= |Direct(inode)|
      {
        if inode.block[i] == 0 {
          n := TakeBlock(ino, inode, i);
          return;
        }
      }
      assert false;
    }

    // ----- directories -----

    /** Adds the records of one block to the list of entries. */
    method CollectBlock(b: nat, acc: seq<Entry>) returns (ret: seq<Entry>)
      requires Valid() && DirBlockOk(fs, b)
      modifies buf, disk, disk.disk
      ensures Valid() && ret == Collect(acc, RecsOf(fs, b))
    {
      hide OnDisk, F.Ok, B.Chain, B.Parse;
      ReadData(b, buf);
      var eb := new E.EntryBlock(buf);
      ret := acc;
      var next := Some(Entry(0, 0, DOT));
      while next.Some?
        invariant Valid() && eb.Valid() && eb.block == buf && fresh(eb)
        invariant next.Some? ==> Collect(acc, RecsOf(fs, b)) == Collect(ret, eb.left)
        invariant next.None? ==> Collect(acc, RecsOf(fs, b)) == ret
        decreases |eb.left|, next.Some?
      {
        next := eb.NextEntry();
        if next.Some? {
          var e := next.value;
          if !(|ret| > 2 && IsDot(e.name)) {
            ret := ret + [e];
          }
        }
      }
    }

    method GetInodeAllEntry(ino: nat) returns (ret: seq<Entry>)
      requires Valid() && IsInode(fs, ino) && TreesOk(fs, F.GetInode(fs, ino)) && DirBlocksOk(fs, F.AllBlocks(fs, ino))
      modifies buf, disk, disk.disk
      ensures Valid() && ret == AllEntries(fs, ino)
    {
      hide OnDisk, F.Ok, Collect;
      var blocks := AllBlocks(ino);
      ret := [];
      for i := 0 to |blocks|
        invariant Valid() && CollectBlocks(fs, ret, blocks, i) == AllEntries(fs, ino)
      {
        ret := CollectBlock(blocks[i], ret);
      }
    }

    /** The inode that ".." names in the directory's first block. */
    method GetFather(ino: nat) returns (father: nat)
      requires Valid() && IsInode(fs, ino) && DirBlockOk(fs, F.GetInode(fs, ino).block[0])
      requires Father(RecsOf(fs, F.GetInode(fs, ino).block[0])).Some?
      modifies buf, disk, disk.disk
      ensures Valid() && Some(father) == Father(RecsOf(fs, F.GetInode(fs, ino).block[0]))
    {
      hide OnDisk, F.Ok, B.Chain, B.Parse;
      var inode := GetInode(ino);
      ReadData(inode.block[0], buf);
      var eb := new E.EntryBlock(buf);
      var next := eb.NextEntry();
      while next.Some?
        invariant Valid() && eb.Valid() && eb.block == buf && fresh(eb)
        invariant next.Some? ==> Father(RecsOf(fs, inode.block[0])) ==
                                 if next.value.name == DOT_DOT then Some(next.value.inode) else Father(eb.left)
        invariant next.None? ==> Father(RecsOf(fs, inode.block[0])) == None
        decreases |eb.left|, next.Some?
      {
        if next.value.name == DOT_DOT {
          return next.value.inode;
        }
        next := eb.NextEntry();
      }
      assert false;
    }

    /** Tries to add an entry to one block of a directory. */
    method AddEntryToBlock(b: nat, e: Entry) returns (ok: bool)
      requires Valid() && DirBlockOk(fs, b) && EntryOk(e)
      modifies buf, `fs, disk, disk.disk
      ensures Valid() && ok == Takes(old(fs), b, e)
      ensures fs == if ok then PutData(old(fs), b, B.AddEntry(old(fs).data[b], e).1) else old(fs)
    {
      hide OnDisk, F.Ok, B.Chain, B.AddEntry, EntryOk;
      ReadData(b, buf);
      var eb := new E.EntryBlock(buf);
      ok := eb.AddEntry(e);
      if ok {
        WriteData(b, buf);
      }
    }

    /** Writes a directory block that holds "." and ".." and the entry. */
    method FillNewBlock(n: nat, ino: nat, father: nat, e: Entry)
      requires Valid() && n in fs.data && EntryOk(e)
      requires B.Chain(B.InitBlock(ino, father), 0)
      requires B.AddEntry(B.InitBlock(ino, father), e) == (true, FirstEntry(ino, father, e))
      modifies buf, `fs, disk, disk.disk
      ensures Valid() && fs == PutData(old(fs), n, FirstEntry(ino, father, e))
    {
      hide OnDisk, F.Ok, B.Chain, B.Parse, B.AddEntry, B.InitBlock, FirstEntry, EntryOk;
      E.InitEntryBlock(buf, ino, father);
      var eb := new E.EntryBlock(buf);
      var flag := eb.AddEntry(e);
      assert flag;
      WriteData(n, buf);
    }

    /** Gives the directory a new block that holds the entry. */
    method AddEntryInNewBlock(ino: nat, e: Entry)
      requires Valid() && A.MetaMarked(fs) && CanAddEntry(fs, ino, e)
      requires FirstTaker(fs, F.AllBlocks(fs, ino), e, 0) == |F.AllBlocks(fs, ino)|
      modifies buf, `fs, disk, disk.disk
      ensures Valid() && fs == AddEntry(old(fs), ino, e)
    {
      hide OnDisk, F.Ok, F.AddBlock, AddEntry, CanAddEntry, CanAddBlock, B.Chain, B.AddEntry, EntryOk, A.MetaMarked,
           B.InitBlock, FirstEntry, FirstTaker, F.AllBlocks, B.Parse, Father;
      D.NewBlockFacts(fs, ino, e);
      var n := AddBlockToInode(ino);
      var father := GetFather(ino);
      FillNewBlock(n, ino, father, e);
    }

    method AddEntryToInode(ino: nat, e: Entry)
      requires Valid() && A.MetaMarked(fs) && CanAddEntry(fs, ino, e) && TreesOk(fs, F.GetInode(fs, ino))
      modifies buf, `fs, disk, disk.disk
      ensures Valid() && fs == AddEntry(old(fs), ino, e)
    {
      hide OnDisk, F.Ok, B.AddEntry, F.AddBlock, A.MetaMarked, TreesOk;
      var blocks := AllBlocks(ino);
      for i := 0 to |blocks|
        invariant Valid() && fs == old(fs)
        invariant FirstTaker(fs, blocks, e, 0) == FirstTaker(fs, blocks, e, i)
      {
        var ok := AddEntryToBlock(blocks[i], e);
        if ok {
          return;
        }
      }
      AddEntryInNewBlock(ino, e);
    }

    method FreeEntryToInode(ino: nat, target: nat)
      requires Valid() && IsInode(fs, ino) && TreesOk(fs, F.GetInode(fs, ino)) && CanFreeEntry(fs, ino, target)
      modifies buf, `fs, disk, disk.disk
      ensures Valid() && fs == FreeEntry(old(fs), ino, target)
    {
      hide OnDisk, F.Ok, B.Chain, B.Parse, B.FreeEntry, NotFirst, FindInode, TreesOk, F.AllBlocks;
      var blocks := AllBlocks(ino);
      for i := 0 to |blocks|
        invariant Valid() && fs == old(fs)
        invariant i <= FirstHolder(fs, blocks, target, 0)
      {
        var ok := FreeEntryInBlock(blocks[i], target);
        if ok {
          return;
        }
      }
      assert false;
    }

    /** Tries to free an entry of one block of a directory. */
    method FreeEntryInBlock(b: nat, target: nat) returns (ok: bool)
      requires Valid() && DirBlockOk(fs, b) && NotFirst(RecsOf(fs, b), target)
      modifies buf, `fs, disk, disk.disk
      ensures Valid() && ok == (FindInode(RecsOf(old(fs), b), target) < |RecsOf(old(fs), b)|)
      ensures fs == if ok then PutData(old(fs), b, B.FreeEntry(old(fs).data[b], target).1) else old(fs)
    {
      hide OnDisk, F.Ok, B.Chain, B.Parse, B.MergeRecord;
      ReadData(b, buf);
      var eb := new E.EntryBlock(buf);
      ok := eb.Free(target);
      if ok {
        WriteData(b, buf);
      }
    }

    // ----- freeing inodes -----

    /** Clears the inode's bit after releasing the blocks of the inode before it. */
    method Ifree(ino: nat)
      requires Mounted() && IsInode(fs, ino)
      requires ino >= FIRST_INO ==>
                 && TreesOk(fs, F.GetInode(fs, ino - 1))
                 && forall b :: b in F.AllBlocks(fs, ino - 1) ==> b in fs.data
      modifies buf, `fs, disk, disk.disk
      ensures Valid() && fs == Q.Ifree(old(fs), ino)
    {
      hide OnDisk, TreesOk, F.AllBlocks, Q.Cleared;
      if ino < firstIno {
        return;
      }
      var (group, ind) := Cut(ino - 1, geo.inodesPerGroup, geo.groups);
      assert InodeBase(geo, group) + ind == ino - 1;
      hide F.Ok, Geo.Ok, Cut, InodeBase;
      var blocks := AllBlocks(ino - 1);
      FreeBlocks(blocks);
      ResetInodeBit(group, ind, ino);
    }

    method FreeBlocks(blocks: seq<nat>)
      requires Valid() && forall b :: b in blocks ==> b in fs.data
      modifies buf, `fs, disk, disk.disk
      ensures Valid() && fs == old(fs).(blockBits := Q.Cleared(old(fs).blockBits, blocks))
    {
      Q.ClearedNone(fs.blockBits);
      assert forall b :: b in blocks ==> IsData(geo, b) && |fs.blockBits| == geo.Blocks();
      hide OnDisk, Q.Cleared, F.Ok;
      for i := 0 to |blocks|
        invariant Valid() && fs == old(fs).(blockBits := Q.Cleared(old(fs).blockBits, blocks[..i]))
      {
        assert blocks[i] in blocks;
        DataOffset(geo, blocks[i]);
        Bfree(blocks[i]);
        Q.ClearedOne(old(fs).blockBits, blocks, i);
      }
      assert blocks[..|blocks|] == blocks;
    }

    method ResetInodeBit(group: nat, ind: nat, ghost ino: nat)
      requires Valid() && group < geo.groups && ind < geo.inodesPerGroup && 1 <= ino <= |fs.inodeBits|
      requires InodeBase(geo, group) + ind == ino - 1
      modifies buf, `fs, disk, disk.disk
      ensures Valid() && fs == old(fs).(inodeBits := old(fs).inodeBits[ino - 1 := false])
    {
      hide OnDisk, F.Ok, InodeBase, Geo.Ok, Bits, Splice;
      var bm := GetInodeBitmap(group);
      A.SpliceBit(fs.inodeBits, InodeBase(geo, group), bm.Content(), ind);
      bm.Reset(ind);
      WriteInodeBitmap(group, bm);
    }

    // ----- formatting -----

    /** Writes all dirty blocks to the disk. */
    method Sync()
      requires Valid()
      modifies disk, disk.disk
      ensures Valid() && Img() == old(Img()) && disk.disk.blocks == Img()
    {
      L.FlushAllKeeps(disk.model);
      disk.FlushAll();
    }

    /** Clears the inode bitmap, the inode table and the data blocks of a group. */
    method ClearGroup(i: nat)
      requires Valid() && i < geo.groups
      modifies buf, `fs, disk, disk.disk
      ensures Valid() && M.Cleared(geo, Img(), i) && |Img()| == |old(Img())|
      ensures forall b ::
                0 <= b < |Img()|
                && !(InodeBitmapIndex(geo, i) <= b < GroupIndex(geo, i) + geo.blocksPerGroup) ==>
                Img()[b] == old(Img())[b]
    {
      hide Abs;
      GroupWithin(geo, i);
      Clear();
      hide F.Ok;
      var first, b, end := InodeBitmapIndex(geo, i), InodeBitmapIndex(geo, i), GroupIndex(geo, i) + geo.blocksPerGroup;
      while b < end
        invariant Valid() && buf[..] == ZeroBlock() && first <= b && |Img()| == |old(Img())|
        invariant forall k :: first <= k < b && k < |Img()| ==> Img()[k] == ZeroBlock()
        invariant forall k :: 0 <= k < |Img()| && !(first <= k < end) ==> Img()[k] == old(Img())[k]
      {
        StoreBlock(b, buf, Abs(geo, Img()[b := buf[..]]));
        b := b + 1;
      }
    }

    /** Marks the metadata blocks of a group. */
    method MarkMeta(i: nat)
      requires Valid() && i < geo.groups
      modifies buf, `fs, disk, disk.disk
      ensures Valid() && |Img()| == |old(Img())|
      ensures GroupBits(geo, Img(), i) == M.WithFirst(GroupBits(geo, old(Img()), i), geo.MetaBlocks())
      ensures forall b :: 0 <= b < |Img()| && b != BlockBitmapIndex(geo, i) ==> Img()[b] == old(Img())[b]
    {
      GroupBitsMean(geo, Img(), i);
      AddressLocated(geo, i, BlockBitmap);
      hide F.Ok, Bits, Abs, M.WithFirst;
      var bm := GetBlockBitmap(i);
      SetFirstBits(bm, geo.MetaBlocks());
      WriteBlockBitmap(i, bm);
    }

    method SetFirstBits(bm: BitMap, n: nat)
      requires bm.Valid() && n <= bm.sizeInBits
      modifies bm.data
      ensures bm.Valid() && bm.Content() == M.WithFirst(old(bm.Content()), n)
    {
      hide Bits, M.WithFirst;
      ghost var bits := bm.Content();
      M.NoMoreBits(bits);
      for j := 0 to n
        invariant bm.Valid() && bm.Content() == M.WithFirst(bits, j)
      {
        M.OneMoreBit(bits, j);
        bm.Set(j);
      }
    }

    method FormatGroup(ghost img0: seq<Block>, i: nat)
      requires Valid() && M.DoneUpTo(geo, img0, Img(), i) && i < geo.groups
      modifies buf, `fs, disk, disk.disk
      ensures Valid() && M.DoneUpTo(geo, img0, Img(), i + 1) && |Img()| == |old(Img())| > 1 && Img()[1] == old(Img())[1]
      ensures Outer() == old(Outer())
    {
      ghost var img := Img();
      hide F.Ok, Bits, Abs, K.Outer;
      ClearGroup(i);
      ghost var mid := Img();
      MarkMeta(i);
      M.GroupInitialised(geo, img0, img, mid, Img(), i);
      K.GroupKeeps(geo, img, mid, Img(), i);
    }

    /** Writes one copy of the super block into every group. */
    method WriteSupers(ghost img0: seq<Block>, super: Block)
      requires Valid() && M.DoneUpTo(geo, img0, Img(), 0)
      modifies buf, `fs, disk, disk.disk
      ensures Valid() && M.DoneUpTo(geo, img0, Img(), 0) && |Img()| == |old(Img())| > 0 && Img()[0] == old(Img())[0]
      ensures K.SupersUpTo(geo, Img(), super, geo.groups)
    {
      hide F.Ok, Abs, M.DoneUpTo, K.SupersUpTo;
      Copy(buf, 0, super);
      assert buf[..] == super;
      K.NoSupers(geo, Img(), super);
      for i := 0 to geo.groups
        invariant Valid() && buf[..] == super && M.DoneUpTo(geo, img0, Img(), 0)
        invariant |Img()| == |old(Img())| > 0 && Img()[0] == old(Img())[0] && K.SupersUpTo(geo, Img(), super, i)
      {
        M.SuperOutside(geo, i);
        M.OutsideNotDone(geo, img0, Img(), SuperBlockIndex(geo, i), buf[..]);
        K.OneMoreSuper(geo, Img(), super, i);
        StoreBlock(SuperBlockIndex(geo, i), buf, Abs(geo, Img()[SuperBlockIndex(geo, i) := buf[..]]));
      }
    }

    /** Writes one copy of the descriptors into a group. */
    method WriteDescTable(ghost img0: seq<Block>, ghost super: Block, i: nat)
      requires Valid() && M.DoneUpTo(geo, img0, Img(), 0) && i < geo.groups
      requires K.SupersUpTo(geo, Img(), super, geo.groups) && K.TablesUpTo(geo, Img(), i)
      modifies buf, `fs, disk, disk.disk
      ensures Valid() && M.DoneUpTo(geo, img0, Img(), 0) && |Img()| == |old(Img())| > 0 && Img()[0] == old(Img())[0]
      ensures K.SupersUpTo(geo, Img(), super, geo.groups) && K.TablesUpTo(geo, Img(), i + 1)
    {
      hide F.Ok, Abs, M.DoneUpTo, K.SupersUpTo, K.TablesUpTo, K.TableAt, M.DescBlock;
      K.NoTable(geo, Img(), i);
      for k := 0 to geo.descBlocks
        invariant Valid() && M.DoneUpTo(geo, img0, Img(), 0)
        invariant |Img()| == |old(Img())| > 0 && Img()[0] == old(Img())[0]
        invariant K.SupersUpTo(geo, Img(), super, geo.groups) && K.TablesUpTo(geo, Img(), i)
        invariant K.TableAt(geo, Img(), i, k)
      {
        Copy(buf, 0, M.DescBlock(geo, k));
        assert buf[..] == M.DescBlock(geo, k);
        M.DescOutside(geo, i, k);
        M.OutsideNotDone(geo, img0, Img(), DescTableIndex(geo, i) + k, buf[..]);
        K.OneMoreDesc(geo, Img(), super, i, k);
        StoreBlock(DescTableIndex(geo, i) + k, buf, Abs(geo, Img()[DescTableIndex(geo, i) + k := buf[..]]));
      }
      K.TableDone(geo, Img(), i);
    }

    /** Writes one copy of the super block and of the descriptors into every group. */
    method WriteCopies(ghost img0: seq<Block>, super: Block)
      requires Valid() && M.DoneUpTo(geo, img0, Img(), 0)
      modifies buf, `fs, disk, disk.disk
      ensures Valid() && M.DoneUpTo(geo, img0, Img(), 0) && |old(Img())| > 0
      ensures K.Copied(geo, Img(), old(Img())[0], super)
    {
      hide F.Ok, Abs, M.DoneUpTo, K.SupersUpTo, K.TablesUpTo;
      WriteSupers(img0, super);
      K.NoTables(geo, Img());
      for i := 0 to geo.groups
        invariant Valid() && M.DoneUpTo(geo, img0, Img(), 0)
        invariant |Img()| == |old(Img())| > 0 && Img()[0] == old(Img())[0]
        invariant K.SupersUpTo(geo, Img(), super, geo.groups) && K.TablesUpTo(geo, Img(), i)
      {
        WriteDescTable(img0, super, i);
      }
    }

    /** Initialises all groups. */
    method Prepare(super: Block)
      requires Valid()
      modifies buf, `fs, disk, disk.disk
      ensures Valid() && fs == M.Prepared(geo, old(fs).blockBits, super) && |old(Img())| > 0
      ensures K.Copied(geo, Img(), old(Img())[0], super)
    {
      ghost var img0, bits := Img(), fs.blockBits;
      assert bits == Abs(geo, img0).blockBits;
      assert M.DoneUpTo(geo, img0, Img(), 0) by { hide GroupBits; }
      hide F.Ok, Abs, M.DoneUpTo, GroupBits, K.Copied, K.Outer, L.View, Geo.Ok, M.MetaBits;
      WriteCopies(img0, super);
      ghost var copied := Img();
      K.CopiedFirst(geo, copied, img0[0], super);
      for i := 0 to geo.groups
        invariant Valid() && M.DoneUpTo(geo, img0, Img(), i) && |Img()| > 1 && Img()[1] == super
        invariant K.Outer(geo, Img()) == K.Outer(geo, copied)
      {
        FormatGroup(img0, i);
      }
      Sync();
      M.PreparedMeans(geo, img0, Img());
      K.CopiedKept(geo, copied, Img(), img0[0], super);
    }

    /** Sets the bit of the inode bitmap at index 2. */
    method SetRootBit()
      requires Valid() && M.ROOT_BIT < geo.inodesPerGroup
      modifies buf, `fs, disk, disk.disk
      ensures Valid() && fs == M.WithRootBit(old(fs)) && Outer() == old(Outer())
    {
      GroupWithin(geo, 0);
      hide K.Outer, OnDisk, F.Ok, Bits, Splice;
      var bm := GetInodeBitmap(0);
      A.SpliceBit(fs.inodeBits, 0, bm.Content(), M.ROOT_BIT);
      bm.Set(M.ROOT_BIT);
      WriteInodeBitmap(0, bm);
    }

    /** Makes inode 2 a directory that is its own father. */
    method InitRoot(now: nat)
      requires Valid() && A.MetaMarked(fs) && IsInode(fs, ROOT_INODE) && Word(now)
      requires Hint(fs, ROOT_INODE) == 0 && CanAllocate(fs, 0, 1)
      modifies buf, `fs, disk, disk.disk
      ensures Valid() && fs == N.BornDir(old(fs), ROOT_INODE, ROOT_INODE, now) && Outer() == old(Outer())
    {
      hide K.Outer, OnDisk, F.Ok, A.MetaMarked, FreeFrom, Marked, B.InitBlock, DirectOnly, Direct, IsDir, InitInode,
           InodeOk, N.DirInode;
      ghost var n := N.FirstFree(fs, ROOT_INODE);
      N.FirstFreeWord(fs, ROOT_INODE);
      N.BornDirList(fs, ROOT_INODE, ROOT_INODE, now);
      var found := Ballocs(0, 1);
      assert found == [n];
      E.InitEntryBlock(buf, ROOT_INODE, ROOT_INODE);
      WriteData(found[0], buf);
      WriteInode(ROOT_INODE, N.DirInode(found[0], now));
    }

    /** Adds the root directory. */
    method MakeRoot(ghost bits: seq<bool>, ghost super: Block, now: nat)
      requires Valid() && M.CanFormat(geo, bits, super) && Word(now) && fs == M.Prepared(geo, bits, super)
      modifies buf, `fs, disk, disk.disk
      ensures Valid() && fs == M.Formatted(geo, bits, super, now) && Outer() == old(Outer())
    {
      M.PreparedOk(geo, bits, super);
      M.HintOfRoot(M.WithRootBit(fs));
      hide K.Outer, OnDisk, F.Ok, FreeFrom, A.MetaMarked, M.WithRootBit, M.Prepared, N.BornDir;
      SetRootBit();
      InitRoot(now);
    }

    // ----- mounting -----

    method CheckIsExt2Format() returns (flag: bool)
      requires Ready() && |Img()| > 1
      modifies buf, disk, disk.disk
      ensures Ready() && Img() == old(Img()) && flag == S.IsExt2(Img()[1])
    {
      ReadBlock(1);
      flag := S.IsExt2(buf[..]);
    }

    /** Computes the geometry from the super block. */
    method ReadInfo()
      requires Ready() && |Img()| > 1 && Le32(Img()[1], 40) > 0 && Fits(S.ReadGeo(Img()[1]), Img())
      modifies buf, `geo, `fs, disk, disk.disk
      ensures Valid() && Img() == old(Img()) && fs == Abs(S.ReadGeo(old(Img())[1]), old(Img()))
    {
      ReadBlock(1);
      geo := S.ReadGeo(buf[..]);
      fs := Abs(geo, Img());
      AbsOk(geo, Img());
    }

    /** Takes the first ordinary inode number from the super block. */
    method ReadSuper()
      requires Valid() && |Img()| > 1
      modifies buf, `firstIno, disk, disk.disk
      ensures Valid() && firstIno == Le32(old(Img())[1], 84)
    {
      ReadBlock(1);
      firstIno := Le32(buf[..], 84);
    }

    /** Formats the disk: geometry, copies of the super block and descriptors, empty groups, root directory. */
    method Format(totalBlocks: nat, now: nat, boot: seq<byte>, rest: seq<byte>)
      requires Ready() && |Img()| == totalBlocks && HasRoom(totalBlocks) && Word(now)
      requires |boot| <= BLOCK_SIZE && |rest| == BLOCK_SIZE - 92
      requires CanFormat(Img(), totalBlocks, now, rest)
      modifies buf, `geo, `fs, disk, disk.disk
      ensures Valid() && fs == AfterFormat(old(Img()), totalBlocks, now, rest) && disk.disk.blocks == Img()
      ensures |Img()| > 1 && Img()[1] == fs.super && Img()[0][..|boot|] == boot
      ensures K.EveryGroupAlike(geo, Img()) && geo.Ok()
      ensures forall j: nat :: j < geo.groups ==> K.DescribesGroup(geo, Img(), j)
    {
      LayoutSound(totalBlocks);
      ghost var img := Img();
      Copy(buf, 0, boot);
      WriteBlock(0, buf);
      geo := GeoOf(BlockGroupCalculation(totalBlocks));
      BlockBitsKept(geo, img, 0, buf[..]);
      fs := Abs(geo, Img());
      AbsOk(geo, Img());
      hide F.Ok, Abs, BlockGroupCalculation, M.CanFormat, M.Formatted, M.Prepared, S.SuperBlockOf, HasRoom, Geo.Ok,
           K.Copied, K.Outer, K.EveryGroupAlike, K.DescribesGroup;
      var super := S.SuperBlockOf(geo, now, rest);
      ghost var bits, first := fs.blockBits, Img()[0];
      Prepare(super);
      ghost var copied := Img();
      MakeRoot(bits, super, now);
      K.CopiedKept(geo, copied, Img(), first, super);
      K.CopiedMeans(geo, Img(), first, super);
      Sync();
      SuperIs(geo, Img());
    }

    method Mount(totalBlocks: nat, now: nat, boot: seq<byte>, rest: seq<byte>)
      requires Ready() && |Img()| == totalBlocks && HasRoom(totalBlocks) && Word(now)
      requires |boot| <= BLOCK_SIZE && |rest| == BLOCK_SIZE - 92 && Mountable(Img(), totalBlocks, now, rest)
      modifies buf, `geo, `firstIno, `fs, disk, disk.disk
      ensures Mounted() && fs == AfterMount(old(Img()), totalBlocks, now, rest)
    {
      hide OnDisk, F.Ok, Abs, S.ReadGeo, CanFormat, AfterFormat, BlockGroupCalculation, I.Inv, Fits;
      ghost var img := Img();
      var known := CheckIsExt2Format();
      if known {
        ReadInfo();
      } else {
        Format(totalBlocks, now, boot, rest);
        AfterFormatRecognised(img, totalBlocks, now, rest);
      }
      ReadSuper();
    }
  }

  lemma SuperIs(g: Geo, img: seq<Block>)
    requires Fits(g, img)
    ensures |img| > 1 && Abs(g, img).super == img[1]
  {
  }

  /** The disk has a free block for the root directory. */
  ghost predicate CanFormat(img: seq<Block>, totalBlocks: nat, now: nat, rest: seq<byte>)
    requires |img| == totalBlocks && HasRoom(totalBlocks) && Word(now) && |rest| == BLOCK_SIZE - 92
  {
    LayoutSound(totalBlocks);
    var g := GeoOf(BlockGroupCalculation(totalBlocks));
    M.CanFormat(g, Abs(g, img).blockBits, S.SuperBlockOf(g, now, rest))
  }

  /** The file system that formatting puts on the disk. */
  function AfterFormat(img: seq<Block>, totalBlocks: nat, now: nat, rest: seq<byte>): Fs
    requires |img| == totalBlocks && HasRoom(totalBlocks) && Word(now) && |rest| == BLOCK_SIZE - 92
    requires CanFormat(img, totalBlocks, now, rest)
  {
    LayoutSound(totalBlocks);
    var g := GeoOf(BlockGroupCalculation(totalBlocks));
    M.Formatted(g, Abs(g, img).blockBits, S.SuperBlockOf(g, now, rest), now)
  }

  /** The disk is recognised and holds all the groups it describes, or it can be formatted. */
  ghost predicate Mountable(img: seq<Block>, totalBlocks: nat, now: nat, rest: seq<byte>)
    requires |img| == totalBlocks && HasRoom(totalBlocks) && Word(now) && |rest| == BLOCK_SIZE - 92
  {
    if S.IsExt2(img[1]) then Le32(img[1], 40) > 0 && Fits(S.ReadGeo(img[1]), img)
    else CanFormat(img, totalBlocks, now, rest)
  }

  /** The file system that mounting gives: the one on the disk, or a new one. */
  function AfterMount(img: seq<Block>, totalBlocks: nat, now: nat, rest: seq<byte>): Fs
    requires |img| == totalBlocks && HasRoom(totalBlocks) && Word(now) && |rest| == BLOCK_SIZE - 92
    requires Mountable(img, totalBlocks, now, rest)
  {
    if S.IsExt2(img[1]) then Abs(S.ReadGeo(img[1]), img) else AfterFormat(img, totalBlocks, now, rest)
  }

  /** Formatting leaves a good, empty file system whose super block a mount recognises. */
  lemma AfterFormatRecognised(img: seq<Block>, totalBlocks: nat, now: nat, rest: seq<byte>)
    requires |img| == totalBlocks && HasRoom(totalBlocks) && Word(now) && |rest| == BLOCK_SIZE - 92
    requires CanFormat(img, totalBlocks, now, rest)
    ensures var fs := AfterFormat(img, totalBlocks, now, rest);
            && S.Describes(fs.super, fs.g) && fs.g == GeoOf(BlockGroupCalculation(totalBlocks)) && I.Inv(fs)
  {
    LayoutSound(totalBlocks);
    var g := GeoOf(BlockGroupCalculation(totalBlocks));
    S.FormattedIsRecognised(g, now, rest);
    M.FormattedGood(g, Abs(g, img).blockBits, S.SuperBlockOf(g, now, rest), now);
    hide I.Inv, S.Describes, M.Formatted, Abs, S.SuperBlockOf, BlockGroupCalculation, M.CanFormat;
  }
}
