/** Freeing an inode, which releases the blocks of its neighbour. */
module Release {
  import opened Bytes
  import opened Geometry
  import opened Inodes
  import opened DirRecords
  import opened Fs
  import opened Invariant
  import opened FileTheory
  import opened Creation
  import opened Balance
  import A = Allocation
  import B = DirBlock
  import D = Directories
  import G = Growth

  function Cleared(bits: seq<bool>, blocks: seq<nat>): (r: seq<bool>)
    ensures |r| == |bits|
  {
    seq(|bits|, j requires 0 <= j < |bits| => bits[j] && j + 1 !in blocks)
  }

  /** The code decrements the inode number before it collects the blocks. */
  function Ifree(fs: Fs, ino: nat): Fs
    requires IsInode(fs, ino) && ino <= |fs.inodeBits|
  {
    if ino < FIRST_INO then fs
    else
      fs.(blockBits := Cleared(fs.blockBits, AllBlocks(fs, ino - 1)), inodeBits := fs.inodeBits[ino - 1 := false])
  }

  /** Reserved inodes are not freed, and from number 11 on the own bit is cleared. */
  lemma IfreeBit(fs: Fs, ino: nat)
    requires IsInode(fs, ino) && ino <= |fs.inodeBits|
    ensures ino < 11 ==> Ifree(fs, ino) == fs
    ensures ino >= 11 ==> Ifree(fs, ino).inodeBits == fs.inodeBits[ino - 1 := false]
  {
    hide AllBlocks, Cleared;
  }

  lemma ClearedOne(bits: seq<bool>, blocks: seq<nat>, i: nat)
    requires i < |blocks| && 1 <= blocks[i] <= |bits|
    ensures Cleared(bits, blocks[..i])[blocks[i] - 1 := false] == Cleared(bits, blocks[..i + 1])
  {
    assert blocks[..i + 1] == blocks[..i] + [blocks[i]];
  }

  /** No live directory has a record for the inode, except perhaps the inode itself. */
  ghost predicate Unnamed(fs: Fs, ino: nat) {
    forall a, b :: Live(fs, a) && a != ino && b in List(fs, a) && IsDir(GetInode(fs, a)) && DirBlockOk(fs, b) ==>
      forall k :: 0 <= k < |RecsOf(fs, b)| ==> RecsOf(fs, b)[k].inode != ino
  }

  lemma ClearedNone(bits: seq<bool>)
    ensures Cleared(bits, []) == bits
  {
  }

  lemma StillLive(fs: Fs, ino: nat, a: nat)
    requires IsInode(fs, ino) && ino <= |fs.inodeBits| && ino >= FIRST_INO
    ensures Live(Ifree(fs, ino), a) <==> Live(fs, a) && a != ino
  {
    hide AllBlocks, Cleared;
  }

  lemma DirStays(fs: Fs, fs': Fs, ino: nat, a: nat)
    requires Unnamed(fs, ino) && Live(fs, a) && a != ino && IsDir(GetInode(fs, a)) && DirGood(fs, a, List(fs, a))
    requires fs'.data == fs.data && forall c :: Live(fs, c) && c != ino ==> Live(fs', c)
    ensures DirGood(fs', a, List(fs, a))
  {
    var blocks := List(fs, a);
    hide Unnamed, Direct, DirBlockGood, Live, B.Chain, D.UniqueNames;
    ListingKept(fs, fs', blocks, 0);
    forall k | 0 <= k < |blocks| ensures DirBlockGood(fs', blocks[k], a) {
    }
  }

  /** Everything but the bitmaps is as before, and no other inode has come to life or died. */
  ghost predicate Released(fs: Fs, fs': Fs, ino: nat) {
    && fs'.g == fs.g && fs'.super == fs.super && fs'.inodes == fs.inodes && fs'.data == fs.data
    && |fs'.blockBits| == |fs.blockBits| && forall a :: Live(fs', a) <==> Live(fs, a) && a != ino
  }

  lemma IfreeReleases(fs: Fs, ino: nat)
    requires IsInode(fs, ino) && FIRST_INO <= ino <= |fs.inodeBits|
    ensures Released(fs, Ifree(fs, ino), ino)
  {
    hide AllBlocks, Live;
    forall a ensures Live(Ifree(fs, ino), a) <==> Live(fs, a) && a != ino {
      StillLive(fs, ino, a);
    }
  }

  /**
   * The code clears the bits of the blocks that the inode before lists.  It does no harm if they are data blocks and
   * none of them belongs to a live inode other than the freed one.
   */
  ghost predicate Harmless(fs: Fs, ino: nat)
    requires 2 <= ino && IsInode(fs, ino)
  {
    var freed := AllBlocks(fs, ino - 1);
    && (forall b :: b in freed && 1 <= b <= |fs.blockBits| ==> b in fs.data)
    && (forall a, b :: Live(fs, a) && a != ino && b in freed ==> b !in List(fs, a))
  }

  /** Every other inode is as good as before. */
  lemma OthersStayGood(fs: Fs, fs': Fs, ino: nat, a: nat)
    requires Inv(fs) && Unnamed(fs, ino) && Released(fs, fs', ino) && Live(fs, a) && a != ino
    requires Owned(fs', List(fs, a))
    ensures IsInode(fs', a) && NodeGood(fs', a)
  {
    assert NodeGood(fs, a);
    hide Inv, Unnamed, DirectOnly, Direct, Owned, DirGood;
    if IsDir(GetInode(fs, a)) && DirGood(fs, a, List(fs, a)) {
      DirStays(fs, fs', ino, a);
    }
  }

  lemma OthersOwn(fs: Fs, ino: nat, a: nat)
    requires Inv(fs) && FIRST_INO <= ino <= |fs.inodeBits| && IsInode(fs, ino) && Harmless(fs, ino)
    requires Live(fs, a) && a != ino
    ensures Owned(Ifree(fs, ino), List(fs, a))
  {
    hide Inv, Direct, AllBlocks, DirectOnly;
    G.LiveOwned(fs, a);
    assert forall k :: 0 <= k < |List(fs, a)| ==> List(fs, a)[k] in List(fs, a);
  }

  lemma FreedOk(fs: Fs, ino: nat)
    requires Ok(fs) && A.MetaMarked(fs) && FIRST_INO <= ino && IsInode(fs, ino) && Harmless(fs, ino)
    ensures Ok(Ifree(fs, ino)) && A.MetaMarked(Ifree(fs, ino))
  {
    hide AllBlocks, InodeOk, Direct;
  }

  lemma FreedGood(fs: Fs, ino: nat)
    requires Inv(fs) && Live(fs, ino) && FIRST_INO <= ino && Unnamed(fs, ino) && Harmless(fs, ino)
    ensures Inv(Ifree(fs, ino))
  {
    hide Unnamed, Direct, AllBlocks, NodeGood, Ok, A.MetaMarked, Cleared, Harmless, Ifree, Released, Disjoint, Owned;
    var fs' := Ifree(fs, ino);
    FreedOk(fs, ino);
    IfreeReleases(fs, ino);
    forall a | Live(fs', a) ensures NodeGood(fs', a) {
      ReleasedMeans(fs, fs', ino, a);
      OthersOwn(fs, ino, a);
      OthersStayGood(fs, fs', ino, a);
    }
    forall a, c | Live(fs', a) && Live(fs', c) && a != c ensures Disjoint(List(fs', a), List(fs', c)) {
      ReleasedMeans(fs, fs', ino, a);
      ReleasedMeans(fs, fs', ino, c);
    }
    ReleasedMeans(fs, fs', ino, ROOT_INODE);
  }

  lemma ReleasedMeans(fs: Fs, fs': Fs, ino: nat, a: nat)
    requires Released(fs, fs', ino)
    ensures Live(fs', a) <==> Live(fs, a) && a != ino
    ensures Live(fs, a) ==>
              IsInode(fs', a) && GetInode(fs', a) == GetInode(fs, a) && List(fs', a) == List(fs, a)
  {
    hide Direct;
  }

  lemma ListedMarked(fs: Fs, a: nat, b: nat)
    requires Inv(fs) && Live(fs, a) && b in List(fs, a)
    ensures b in fs.data && 1 <= b <= |fs.blockBits| && fs.blockBits[b - 1]
  {
    hide Inv, Direct, DirectOnly;
    G.LiveOwned(fs, a);
  }

  /** If the invariant survives, nothing that was cleared is needed. */
  lemma SurvivesHarmless(fs: Fs, ino: nat)
    requires Inv(fs) && Live(fs, ino) && FIRST_INO <= ino && Inv(Ifree(fs, ino))
    ensures Harmless(fs, ino)
  {
    var fs', freed := Ifree(fs, ino), AllBlocks(fs, ino - 1);
    hide Direct, AllBlocks, AllGood, AllDisjoint, Ok, Released, Live;
    IfreeReleases(fs, ino);
    assert A.MetaMarked(fs') && fs'.blockBits == Cleared(fs.blockBits, freed) && fs'.data == fs.data;
    hide Inv, Ifree;
    forall a, b | Live(fs, a) && a != ino && b in freed ensures b !in List(fs, a) {
      ReleasedMeans(fs, fs', ino, a);
      if b in List(fs, a) {
        ListedMarked(fs', a, b);
      }
    }
  }

  /**
   * Freeing a live inode that no directory names keeps the invariant exactly when the blocks listed by the inode
   * before it, live or not, are data blocks that no other live inode lists.
   */
  lemma IfreeExact(fs: Fs, ino: nat)
    requires Inv(fs) && Live(fs, ino) && FIRST_INO <= ino && Unnamed(fs, ino)
    ensures Inv(Ifree(fs, ino)) <==> Harmless(fs, ino)
  {
    hide Inv, Unnamed, Harmless, Ifree;
    if Harmless(fs, ino) {
      FreedGood(fs, ino);
    }
    if Inv(Ifree(fs, ino)) {
      SurvivesHarmless(fs, ino);
    }
  }

  /** Behind a live inode with blocks the invariant breaks: they are marked free, but still listed. */
  lemma BreaksBehindLive(fs: Fs, ino: nat)
    requires Inv(fs) && Live(fs, ino) && FIRST_INO < ino && Live(fs, ino - 1) && List(fs, ino - 1) != []
    ensures !Inv(Ifree(fs, ino))
  {
    hide Inv, AllBlocks, Direct, Ifree, DirectOnly, TreesOk, Owned;
    G.LiveOwned(fs, ino - 1);
    AllBlocksDirect(fs, ino - 1);
    assert List(fs, ino - 1)[0] in List(fs, ino - 1);
    if Inv(Ifree(fs, ino)) {
      SurvivesHarmless(fs, ino);
    }
  }

  /** Behind another live inode the invariant survives exactly when that one lists no blocks. */
  lemma IfreeBehindLive(fs: Fs, ino: nat)
    requires Inv(fs) && Live(fs, ino) && FIRST_INO < ino && Unnamed(fs, ino) && Live(fs, ino - 1)
    ensures Inv(Ifree(fs, ino)) <==> List(fs, ino - 1) == []
  {
    hide Inv, Unnamed, AllBlocks, Direct, Ifree, DirectOnly, TreesOk, Owned;
    if List(fs, ino - 1) != [] {
      BreaksBehindLive(fs, ino);
    } else {
      G.LiveOwned(fs, ino - 1);
      AllBlocksDirect(fs, ino - 1);
      FreedGood(fs, ino);
    }
  }

  /**
   * No live inode lists a block of the freed inode any more; the block nevertheless stays marked, unless the inode
   * before lists it.
   */
  lemma OwnBlocksLeak(fs: Fs, ino: nat, b: nat)
    requires Inv(fs) && Live(fs, ino) && FIRST_INO <= ino && b in List(fs, ino)
    ensures var fs' := Ifree(fs, ino);
            && 1 <= b <= |fs'.blockBits| && (fs'.blockBits[b - 1] <==> b !in AllBlocks(fs, ino - 1))
            && forall a :: Live(fs', a) ==> b !in List(fs', a)
  {
    hide Inv, Direct, AllBlocks;
    var fs' := Ifree(fs, ino);
    IfreeReleases(fs, ino);
    ListedMarked(fs, ino, b);
    hide Released, Live;
    forall a | Live(fs', a) ensures b !in List(fs', a) {
      ReleasedMeans(fs, fs', ino, a);
      G.ListsDisjoint(fs, ino, a);
    }
  }

  /** Nothing is lost exactly when the inode before lists all blocks of the freed one. */
  lemma IfreeLoses(fs: Fs, ino: nat)
    requires Inv(fs) && NothingLost(fs) && Live(fs, ino) && FIRST_INO <= ino
    ensures NothingLost(Ifree(fs, ino)) <==> forall b :: b in List(fs, ino) ==> b in AllBlocks(fs, ino - 1)
  {
    hide Inv, Direct, AllBlocks;
    var fs' := Ifree(fs, ino);
    IfreeReleases(fs, ino);
    hide Live;
    if NothingLost(fs') {
      forall b | b in List(fs, ino) ensures b in AllBlocks(fs, ino - 1) {
        ListedMarked(fs, ino, b);
        OwnBlocksLeak(fs, ino, b);
      }
    }
    if forall b :: b in List(fs, ino) ==> b in AllBlocks(fs, ino - 1) {
      forall b | b in fs'.data && 1 <= b <= |fs'.blockBits| && fs'.blockBits[b - 1] ensures Listed(fs', b) {
        var a :| Live(fs, a) && b in List(fs, a);
        ReleasedMeans(fs, fs', ino, a);
      }
    }
  }
}
