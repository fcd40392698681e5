/** Overwriting inside the block list, whatever levels of pointer blocks the list goes through. */
module Overwrites {
  import opened Bytes
  import opened Geometry
  import opened Inodes
  import opened Fs
  import opened FileData
  import opened Files
  import opened FileTheory
  import A = Allocation
  import L = LruModel
  import P = PointerTree

  /** None of the listed blocks is one of the inode's pointer blocks. */
  ghost predicate ListApart(fs: Fs, i: Inode, blocks: seq<nat>) {
    forall k :: 0 <= k < |i.block| ==> P.Apart(PointerMap(fs), i.block[k], P.LevelOf(k), blocks)
  }

  /**
   * `write` within the list: no block is allocated, the enumeration stays the same, the bytes are spliced into the
   * concatenation of the listed blocks, and no block outside the list changes.
   */
  lemma OverwriteAnyLength(fs: Fs, ino: nat, offset: nat, bytes: seq<byte>, now: nat)
    requires CanWrite(fs, ino, offset, |bytes|, now) && offset + |bytes| < 0x1_0000_0000
    requires var sized := Sized(fs, ino, offset + |bytes|, now);
             var blocks := AllBlocks(sized, ino);
             && Within(blocks, offset, |bytes|) && L.Distinct(blocks) && ListApart(sized, GetInode(sized, ino), blocks)
    ensures var sized := Sized(fs, ino, offset + |bytes|, now);
            var blocks, fs' := AllBlocks(sized, ino), WriteFile(fs, ino, offset, bytes, now);
            && fs' == sized.(data := fs'.data) && AllBlocks(fs', ino) == blocks
            && Held(fs.data, blocks) && Held(fs'.data, blocks) && offset + |bytes| <= BLOCK_SIZE * |blocks|
            && Flat(fs'.data, blocks) == Splice(Flat(fs.data, blocks), offset, bytes)
            && (forall b :: b in fs.data && b !in blocks ==> b in fs'.data && fs'.data[b] == fs.data[b])
  {
    hide Ok, A.MetaMarked, TreesOk, Patch, Flat, L.Distinct, Grow, CanGrow, P.Apart, P.WalkRoots;
    WrapsBeyond(offset, |bytes|);
    var sized := Sized(fs, ino, offset + |bytes|, now);
    var blocks, fs' := AllBlocks(sized, ino), WriteFile(fs, ino, offset, bytes, now);
    assert sized.data == fs.data && Shortage(sized, ino, offset + |bytes|) == 0;
    GrowNone(sized, ino);
    hide Within, Wrap, WrapsAround, Bounded, Shortage;
    PatchIsSplice(fs.data, blocks, offset, bytes);
    P.WalkRootsFrame(PointerMap(sized), PointerMap(fs'), GetInode(sized, ino).block, 0, [], blocks);
  }

  /** `read` through any levels of pointer blocks returns the stretch of the concatenated blocks. */
  lemma ReadAnyLength(fs: Fs, ino: nat, offset: nat, count: nat, now: nat)
    requires CanRead(fs, ino, offset, count, now) && offset < GetInode(fs, ino).size
    ensures var blocks, n := AllBlocks(Accessed(fs, ino, now), ino), ReadSize(GetInode(fs, ino).size, offset, count);
            && Held(fs.data, blocks) && offset + n <= BLOCK_SIZE * |blocks|
            && ReadFile(fs, ino, offset, count, now) == Flat(fs.data, blocks)[offset..offset + n]
  {
    hide AllBlocks, TreesOk, Slice, Flat, Within, ReadSize;
    SliceIsFlat(fs.data, AllBlocks(Accessed(fs, ino, now), ino), offset,
                ReadSize(GetInode(fs, ino).size, offset, count));
  }
}
