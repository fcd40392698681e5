/**
 * What every reachable file system satisfies: metadata is never free, every block listed by a live inode is a
 * marked data block listed exactly once overall, files cover their size, and directories are well formed.
 */
module Invariant {
  import opened Bytes
  import opened Geometry
  import opened Inodes
  import opened DirRecords
  import opened Fs
  import A = Allocation
  import B = DirBlock
  import D = Directories
  import L = LruModel

  /** The root, or an ordinary inode whose bit is set. */
  predicate Live(fs: Fs, ino: nat) {
    IsInode(fs, ino) && |fs.inodeBits| == |fs.inodes|
    && (ino == ROOT_INODE || (ino >= FIRST_INO && fs.inodeBits[ino - 1]))
  }

  /** The blocks of an inode that uses direct pointers only. */
  function List(fs: Fs, ino: nat): seq<nat>
    requires IsInode(fs, ino)
  {
    Direct(GetInode(fs, ino))
  }

  /** The blocks are data blocks marked in use, each listed once. */
  ghost predicate Owned(fs: Fs, blocks: seq<nat>) {
    && L.Distinct(blocks)
    && forall k :: 0 <= k < |blocks| ==>
         blocks[k] in fs.data && 1 <= blocks[k] <= |fs.blockBits| && fs.blockBits[blocks[k] - 1]
  }

  /** The blocks cover the size, with one block to spare when the size is a multiple of the block size. */
  predicate Covers(i: Inode) {
    i.size > 0 ==> i.size / BLOCK_SIZE < |Direct(i)|
  }

  ghost predicate EntriesLive(fs: Fs, recs: seq<Rec>) {
    forall k :: 0 <= k < |recs| ==> Live(fs, recs[k].inode)
  }

  ghost predicate DirBlockGood(fs: Fs, b: nat, ino: nat) {
    DirBlockOk(fs, b) && Shaped(RecsOf(fs, b), ino) && EntriesLive(fs, RecsOf(fs, b))
  }

  ghost predicate DirGood(fs: Fs, ino: nat, blocks: seq<nat>) {
    && blocks != []
    && (forall k :: 0 <= k < |blocks| ==> DirBlockGood(fs, blocks[k], ino))
    && DirBlocksOk(fs, blocks) && D.UniqueNames(D.Listing(fs, blocks, 0))
  }

  ghost predicate NodeGood(fs: Fs, ino: nat)
    requires IsInode(fs, ino)
  {
    var i := GetInode(fs, ino);
    && DirectOnly(i) && Owned(fs, Direct(i))
    && ((IsReg(i) && Covers(i)) || (IsDir(i) && DirGood(fs, ino, Direct(i))))
  }

  ghost predicate Disjoint(s: seq<nat>, t: seq<nat>) {
    forall b :: b in s ==> b !in t
  }

  ghost predicate AllGood(fs: Fs) {
    forall a {:trigger NodeGood(fs, a)} :: Live(fs, a) ==> NodeGood(fs, a)
  }

  ghost predicate AllDisjoint(fs: Fs) {
    forall a, c :: Live(fs, a) && Live(fs, c) && a != c ==> Disjoint(List(fs, a), List(fs, c))
  }

  ghost predicate Inv(fs: Fs) {
    && Ok(fs) && A.MetaMarked(fs)
    && Live(fs, ROOT_INODE) && IsDir(GetInode(fs, ROOT_INODE))
    && AllGood(fs) && AllDisjoint(fs)
  }

  lemma InvOk(fs: Fs)
    requires Inv(fs)
    ensures Ok(fs) && A.MetaMarked(fs)
  {
  }

  // ----- what an update of one inode and its blocks leaves alone -----

  /** Everything that was in use still is, and the inodes and data that `a` depends on are the same. */
  ghost predicate Undisturbed(fs: Fs, fs': Fs, a: nat) {
    && IsInode(fs, a) && IsInode(fs', a) && GetInode(fs', a) == GetInode(fs, a)
    && (forall k :: 0 <= k < |List(fs, a)| ==>
          List(fs, a)[k] in fs.data && List(fs, a)[k] in fs'.data
              && fs'.data[List(fs, a)[k]] == fs.data[List(fs, a)[k]])
  }

  ghost predicate Grows(fs: Fs, fs': Fs) {
    && |fs'.inodes| == |fs.inodes| && |fs'.blockBits| == |fs.blockBits|
    && (forall j :: 0 <= j < |fs.blockBits| && fs.blockBits[j] ==> fs'.blockBits[j])
    && (forall a :: Live(fs, a) ==> Live(fs', a))
  }

  lemma OwnedKept(fs: Fs, fs': Fs, blocks: seq<nat>)
    requires Owned(fs, blocks) && Grows(fs, fs') && forall k :: 0 <= k < |blocks| ==> blocks[k] in fs'.data
    ensures Owned(fs', blocks)
  {
  }

  lemma BlocksOkKept(fs: Fs, fs': Fs, blocks: seq<nat>)
    requires DirBlocksOk(fs, blocks)
    requires forall k :: 0 <= k < |blocks| ==> blocks[k] in fs'.data && fs'.data[blocks[k]] == fs.data[blocks[k]]
    ensures DirBlocksOk(fs', blocks)
  {
    hide B.Chain;
    forall k | 0 <= k < |blocks| ensures DirBlockOk(fs', blocks[k]) {
      assert DirBlockOk(fs, blocks[k]);
    }
  }

  lemma {:induction false} ListingKept(fs: Fs, fs': Fs, blocks: seq<nat>, i: nat)
    requires DirBlocksOk(fs, blocks) && i <= |blocks|
    requires forall k :: 0 <= k < |blocks| ==> blocks[k] in fs'.data && fs'.data[blocks[k]] == fs.data[blocks[k]]
    ensures DirBlocksOk(fs', blocks) && D.Listing(fs', blocks, i) == D.Listing(fs, blocks, i)
    decreases |blocks| - i
  {
    hide B.Chain, B.Parse, D.NonDot;
    BlocksOkKept(fs, fs', blocks);
    if i < |blocks| {
      ListingKept(fs, fs', blocks, i + 1);
    }
  }

  lemma DirKept(fs: Fs, fs': Fs, ino: nat, blocks: seq<nat>)
    requires DirGood(fs, ino, blocks) && Grows(fs, fs')
    requires forall k :: 0 <= k < |blocks| ==> blocks[k] in fs'.data && fs'.data[blocks[k]] == fs.data[blocks[k]]
    ensures DirGood(fs', ino, blocks)
  {
    ListingKept(fs, fs', blocks, 0);
    forall k | 0 <= k < |blocks| ensures DirBlockGood(fs', blocks[k], ino) {
      assert DirBlockGood(fs, blocks[k], ino);
      hide B.Chain, B.Parse, Shaped;
    }
  }

  lemma NodeKept(fs: Fs, fs': Fs, a: nat)
    requires IsInode(fs, a) && NodeGood(fs, a) && Grows(fs, fs') && Undisturbed(fs, fs', a)
    ensures NodeGood(fs', a)
  {
    hide Direct, DirectOnly, DirGood, Grows;
    OwnedKept(fs, fs', List(fs, a));
    if IsDir(GetInode(fs, a)) && DirGood(fs, a, List(fs, a)) {
      DirKept(fs, fs', a, List(fs, a));
    }
  }

  /**
   * One inode, old or new, changes with its blocks; every other live inode is undisturbed and owns none of the
   * blocks now listed there.
   */
  ghost predicate Changes(fs: Fs, fs': Fs, ino: nat) {
    && Grows(fs, fs') && Live(fs', ino)
    && (forall a :: Live(fs', a) ==> a == ino || Live(fs, a))
    && (forall a :: Live(fs, a) && a != ino ==> Undisturbed(fs, fs', a))
    && (forall a :: Live(fs, a) && a != ino ==> Disjoint(List(fs, a), List(fs', ino)))
  }

  lemma ChangeGood(fs: Fs, fs': Fs, ino: nat)
    requires AllGood(fs) && Changes(fs, fs', ino) && NodeGood(fs', ino)
    ensures AllGood(fs')
  {
    hide NodeGood, Direct, Grows, Undisturbed;
    forall a | Live(fs', a) ensures NodeGood(fs', a) {
      if a != ino {
        NodeKept(fs, fs', a);
      }
    }
  }

  lemma ChangeDisjoint(fs: Fs, fs': Fs, ino: nat)
    requires AllDisjoint(fs) && Changes(fs, fs', ino)
    ensures AllDisjoint(fs')
  {
    hide Direct, Grows, Disjoint;
    forall a, c | Live(fs', a) && Live(fs', c) && a != c ensures Disjoint(List(fs', a), List(fs', c)) {
      assert a != ino ==> Undisturbed(fs, fs', a);
      assert c != ino ==> Undisturbed(fs, fs', c);
      if a == ino {
        DisjointSym(List(fs, c), List(fs', ino));
      }
    }
  }

  lemma DisjointSym(s: seq<nat>, t: seq<nat>)
    requires Disjoint(s, t)
    ensures Disjoint(t, s)
  {
  }

  /** The general step of the invariant. */
  lemma ChangeKeeps(fs: Fs, fs': Fs, ino: nat)
    requires Inv(fs) && Ok(fs') && A.MetaMarked(fs') && Changes(fs, fs', ino) && NodeGood(fs', ino)
    requires ino == ROOT_INODE ==> IsDir(GetInode(fs', ino))
    ensures Inv(fs')
  {
    ChangeGood(fs, fs', ino);
    ChangeDisjoint(fs, fs', ino);
    assert Live(fs', ROOT_INODE);
    assert ino != ROOT_INODE ==> Undisturbed(fs, fs', ROOT_INODE);
    hide NodeGood, AllGood, AllDisjoint, Live, Ok, A.MetaMarked;
  }
}
