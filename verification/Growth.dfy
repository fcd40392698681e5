/** Growing an inode by one direct block. */
module Growth {
  import opened Bytes
  import opened Geometry
  import opened Inodes
  import opened Fs
  import opened Invariant
  import A = Allocation
  import D = Directories
  import P = PointerTree

  lemma {:induction false} UpToZeroIs(s: seq<nat>, n: nat)
    requires n <= |s| && (forall k :: 0 <= k < n ==> s[k] != 0) && (n < |s| ==> s[n] == 0)
    ensures P.UpToZero(s) == s[..n]
  {
    if n > 0 {
      UpToZeroIs(s[1..], n - 1);
      assert s[..n] == [s[0]] + s[1..][..n - 1];
    }
  }

  /** Storing a pointer in the first free place appends it to the list. */
  lemma DirectExtended(i: Inode, n: nat)
    requires DirectOnly(i) && |Direct(i)| < DIRECT_BLOCKS && n != 0
    ensures var i' := i.(block := i.block[|Direct(i)| := n]);
            DirectOnly(i') && Direct(i') == Direct(i) + [n]
  {
    var k := |Direct(i)|;
    var block' := i.block[k := n];
    FirstZero(i);
    UpToZeroIs(i.block, k);
    UpToZeroIs(block', k + 1);
    assert block'[..k + 1] == i.block[..k] + [n];
    hide P.UpToZero;
  }

  lemma LiveOwned(fs: Fs, a: nat)
    requires Inv(fs) && Live(fs, a)
    ensures Owned(fs, List(fs, a)) && DirectOnly(GetInode(fs, a))
  {
    hide Direct, DirectOnly, Owned, DirGood;
    assert NodeGood(fs, a);
  }

  lemma OwnedMarked(fs: Fs, blocks: seq<nat>, n: nat)
    requires Owned(fs, blocks) && 1 <= n <= |fs.blockBits| && !fs.blockBits[n - 1]
    ensures n !in blocks
  {
  }

  /** A block that was free is not listed by any live inode. */
  lemma FreeNotListed(fs: Fs, a: nat, n: nat)
    requires Inv(fs) && Live(fs, a) && 1 <= n <= |fs.blockBits| && !fs.blockBits[n - 1]
    ensures n !in List(fs, a)
  {
    hide Inv, Owned, Direct;
    LiveOwned(fs, a);
    OwnedMarked(fs, List(fs, a), n);
  }

  lemma OwnedExtended(fs: Fs, fs': Fs, blocks: seq<nat>, n: nat)
    requires Owned(fs, blocks) && Grows(fs, fs') && fs'.data == fs.data && n !in blocks
    requires n in fs.data && 1 <= n <= |fs'.blockBits| && fs'.blockBits[n - 1]
    ensures Owned(fs', blocks + [n])
  {
  }

  /** `grown` is `fs` with the block `n` given to the inode: fresh, last in its list, everything else as before. */
  ghost predicate Appended(fs: Fs, grown: Fs, ino: nat, n: nat) {
    && IsInode(fs, ino) && IsInode(grown, ino)
    && Ok(grown) && A.MetaMarked(grown) && Changes(fs, grown, ino)
    && n in fs.data && 1 <= n <= |fs.blockBits| && !fs.blockBits[n - 1] && n !in List(fs, ino)
    && grown.data == fs.data && grown.super == fs.super && grown.g == fs.g && grown.inodeBits == fs.inodeBits
    && grown.inodes == fs.inodes[ino - 1 := GetInode(grown, ino)]
    && GetInode(grown, ino) == GetInode(fs, ino).(block := GetInode(grown, ino).block)
    && DirectOnly(GetInode(grown, ino)) && List(grown, ino) == List(fs, ino) + [n]
    && Owned(grown, List(grown, ino))
  }

  /**
   * Append by growth: the block is fresh, the inode's enumeration gets it at the end, and every other live inode
   * keeps its inode, its enumeration and its data.
   */
  lemma AddBlockAppends(fs: Fs, ino: nat)
    requires Inv(fs) && Live(fs, ino) && CanAddBlock(fs, ino)
    ensures Appended(fs, AddBlock(fs, ino).1, ino, AddBlock(fs, ino).0)
    ensures AllBlocks(AddBlock(fs, ino).1, ino) == AllBlocks(fs, ino) + [AddBlock(fs, ino).0]
  {
    hide Ok, A.MetaMarked, AllBlocks, Direct, DirectOnly, NodeGood, Inv, Changes, FreeFrom, Owned, AddBlock,
         CanAddBlock, TreesOk;
    var n, grown := AddBlock(fs, ino).0, AddBlock(fs, ino).1;
    InvOk(fs);
    LiveOwned(fs, ino);
    D.GrowthFrame(fs, ino);
    ListGrown(fs, ino);
    AddBlockParts(fs, ino);
    AllBlocksDirect(fs, ino);
    AllBlocksDirect(grown, ino);
    FreeNotListed(fs, ino, n);
    GrowthChanges(fs, ino);
    ChangesGrows(fs, grown, ino);
    OwnedExtended(fs, grown, List(fs, ino), n);
  }

  lemma AddBlockParts(fs: Fs, ino: nat)
    requires Ok(fs) && A.MetaMarked(fs) && CanAddBlock(fs, ino) && DirectOnly(GetInode(fs, ino))
    ensures var (n, grown) := AddBlock(fs, ino);
            && 1 <= n <= |grown.blockBits| && grown.blockBits[n - 1] && IsInode(grown, ino)
               && DirectOnly(GetInode(grown, ino))
            && grown.super == fs.super && grown.g == fs.g && grown.inodeBits == fs.inodeBits
            && grown.inodes == fs.inodes[ino - 1 := GetInode(grown, ino)]
            && GetInode(grown, ino) == GetInode(fs, ino).(block := GetInode(grown, ino).block)
  {
    hide Direct, DirectOnly, FreeFrom, Ok, A.MetaMarked;
    D.GrowthFrame(fs, ino);
    DirectExtended(GetInode(fs, ino), AddBlock(fs, ino).0);
  }

  /** The block is the nearest free one, seen from the group that the inode number over the inodes per group names. */
  lemma AddBlockNearest(fs: Fs, ino: nat)
    requires Ok(fs) && A.MetaMarked(fs) && CanAddBlock(fs, ino)
    ensures A.Nearest(fs.g, fs.blockBits, ino / fs.g.inodesPerGroup, AddBlock(fs, ino).0)
    ensures AddBlock(fs, ino).0 in fs.data
  {
    hide FreeFrom, Direct, A.Nearest, Ok, A.MetaMarked;
    A.FirstIsNearest(fs, ino / fs.g.inodesPerGroup);
  }

  lemma ChangesGrows(fs: Fs, fs': Fs, ino: nat)
    requires Changes(fs, fs', ino)
    ensures Grows(fs, fs') && forall a :: Live(fs, a) ==> Live(fs', a)
  {
  }

  lemma ListsDisjoint(fs: Fs, a: nat, c: nat)
    requires Inv(fs) && Live(fs, a) && Live(fs, c) && a != c
    ensures Disjoint(List(fs, a), List(fs, c))
  {
  }

  lemma OwnedData(fs: Fs, blocks: seq<nat>)
    requires Owned(fs, blocks)
    ensures forall k :: 0 <= k < |blocks| ==> blocks[k] in fs.data
  {
  }

  /** A new block is disjoint from every other list. */
  lemma OtherUndisturbed(fs: Fs, fs': Fs, ino: nat, n: nat, a: nat)
    requires Inv(fs) && Live(fs, ino) && Live(fs, a) && a != ino
    requires 1 <= n <= |fs.blockBits| && !fs.blockBits[n - 1]
    requires |fs'.inodes| == |fs.inodes| && GetInode(fs', a) == GetInode(fs, a) && fs'.data == fs.data
    requires List(fs', ino) == List(fs, ino) + [n]
    ensures Undisturbed(fs, fs', a) && Disjoint(List(fs, a), List(fs', ino))
  {
    hide Inv, Owned, Direct;
    LiveOwned(fs, a);
    OwnedData(fs, List(fs, a));
    ListsDisjoint(fs, a, ino);
    FreeNotListed(fs, a, n);
  }

  lemma AddBlockGrows(fs: Fs, ino: nat)
    requires CanAddBlock(fs, ino)
    ensures var grown := AddBlock(fs, ino).1;
            && Grows(fs, grown) && grown.inodeBits == fs.inodeBits && |grown.inodes| == |fs.inodes|
            && forall a :: IsInode(fs, a) && a != ino ==> GetInode(grown, a) == GetInode(fs, a)
  {
    hide FreeFrom, Direct;
  }

  lemma ListGrown(fs: Fs, ino: nat)
    requires Ok(fs) && A.MetaMarked(fs) && CanAddBlock(fs, ino) && DirectOnly(GetInode(fs, ino))
    ensures var (n, grown) := AddBlock(fs, ino);
            && 1 <= n <= |fs.blockBits| && !fs.blockBits[n - 1] && IsInode(grown, ino) && grown.data == fs.data
            && List(grown, ino) == List(fs, ino) + [n]
  {
    hide Ok, A.MetaMarked, DirectOnly, FreeFrom;
    D.GrowthFrame(fs, ino);
    DirectExtended(GetInode(fs, ino), AddBlock(fs, ino).0);
  }

  lemma GrowthChanges(fs: Fs, ino: nat)
    requires Inv(fs) && Live(fs, ino) && CanAddBlock(fs, ino)
    ensures Changes(fs, AddBlock(fs, ino).1, ino)
  {
    hide Inv, Owned, Direct, DirectOnly, AddBlock, CanAddBlock, Undisturbed, Disjoint, Grows, Ok, A.MetaMarked;
    InvOk(fs);
    LiveOwned(fs, ino);
    ListGrown(fs, ino);
    AddBlockGrows(fs, ino);
    var (n, grown) := AddBlock(fs, ino);
    forall a | Live(fs, a) && a != ino
      ensures Undisturbed(fs, grown, a) && Disjoint(List(fs, a), List(grown, ino))
    {
      OtherUndisturbed(fs, grown, ino, n, a);
    }
  }
}
