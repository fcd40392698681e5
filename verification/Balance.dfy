/** Nothing is lost: every data block that becomes marked is listed by a live inode, and stays listed. */
module Balance {
  import opened Bytes
  import opened Geometry
  import opened Inodes
  import opened DirRecords
  import opened Fs
  import opened Invariant
  import opened DirUpdates
  import opened DirMaps
  import opened FileData
  import opened Files
  import opened FileTheory
  import opened Creation
  import A = Allocation
  import B = DirBlock
  import BitMap
  import D = Directories
  import G = Growth
  import P = PointerTree

  ghost predicate Listed(fs: Fs, b: nat) {
    exists a :: Live(fs, a) && b in List(fs, a)
  }

  /** Every data block that is marked is listed by a live inode. */
  ghost predicate NothingLost(fs: Fs) {
    forall b :: b in fs.data && 1 <= b <= |fs.blockBits| && fs.blockBits[b - 1] ==> Listed(fs, b)
  }

  /** With ownership: a data block is marked if and only if a live inode lists it. */
  lemma MarkedIsListed(fs: Fs, b: nat)
    requires Inv(fs) && NothingLost(fs) && b in fs.data
    ensures 1 <= b <= |fs.blockBits| && (fs.blockBits[b - 1] <==> Listed(fs, b))
  {
    InvOk(fs);
    assert 1 <= b <= |fs.blockBits| by { hide Inv, InodeOk; }
    hide Inv, Direct, DirectOnly;
    if Listed(fs, b) {
      var a :| Live(fs, a) && b in List(fs, a);
      G.LiveOwned(fs, a);
    }
  }

  ghost predicate IsClear(bits: seq<bool>, b: nat) {
    1 <= b <= |bits| && !bits[b - 1]
  }

  ghost function ClearFrom(bits: seq<bool>, p: nat): set<nat> {
    set b: nat | p < b <= |bits| && IsClear(bits, b)
  }

  lemma {:induction false} ClearTally(bits: seq<bool>, p: nat)
    requires p <= |bits|
    ensures |ClearFrom(bits, p)| == BitMap.Tally(bits, p, false)
    decreases |bits| - p
  {
    if p < |bits| {
      ClearTally(bits, p + 1);
      var rest := ClearFrom(bits, p + 1);
      assert IsClear(bits, p + 1) <==> !bits[p];
      assert ClearFrom(bits, p) == if bits[p] then rest else rest + {p + 1};
    }
  }

  ghost function ListedBlocks(fs: Fs): set<nat> {
    set b | b in fs.data && Listed(fs, b)
  }

  lemma ClearIsData(fs: Fs, b: nat)
    requires A.MetaMarked(fs) && IsClear(fs.blockBits, b)
    ensures b in fs.data.Keys
  {
  }

  /** The exact balance: the free blocks and the listed ones together are all data blocks. */
  lemma FreeBalance(fs: Fs)
    requires Inv(fs) && NothingLost(fs)
    ensures A.FreeBlocks(fs) + |ListedBlocks(fs)| == |fs.data|
  {
    hide Inv, Listed, NothingLost, Ok, A.MetaMarked;
    InvOk(fs);
    var clear, listed, all := ClearFrom(fs.blockBits, 0), ListedBlocks(fs), fs.data.Keys;
    ClearTally(fs.blockBits, 0);
    forall b | b in clear ensures b in all {
      ClearIsData(fs, b);
    }
    forall b | b in all ensures b in clear <==> b !in listed {
      MarkedIsListed(fs, b);
    }
    assert forall b :: b in listed ==> b in all;
    hide ClearFrom, ListedBlocks;
    assert clear + listed == all && clear !! listed;
    assert |clear + listed| == |clear| + |listed|;
  }

  /** Lists only grow, and what becomes marked is listed. */
  ghost predicate Accounts(fs: Fs, fs': Fs) {
    && |fs'.blockBits| == |fs.blockBits| && fs'.data.Keys == fs.data.Keys
    && (forall a :: Live(fs, a) ==> Live(fs', a) && List(fs, a) <= List(fs', a))
    && (forall j :: 0 <= j < |fs.blockBits| && fs'.blockBits[j] && !fs.blockBits[j] ==> Listed(fs', j + 1))
  }

  lemma AccountsKeeps(fs: Fs, fs': Fs)
    requires NothingLost(fs) && Accounts(fs, fs')
    ensures NothingLost(fs')
  {
    hide Direct;
    forall b | b in fs'.data && 1 <= b <= |fs'.blockBits| && fs'.blockBits[b - 1] ensures Listed(fs', b) {
      if fs.blockBits[b - 1] {
        assert b in fs.data.Keys;
        var a :| Live(fs, a) && b in List(fs, a);
        StillListed(fs, fs', a, b);
      } else {
        assert Listed(fs', (b - 1) + 1);
      }
    }
  }

  lemma StillListed(fs: Fs, fs': Fs, a: nat, b: nat)
    requires Live(fs, a) && b in List(fs, a) && Live(fs', a) && List(fs, a) <= List(fs', a)
    ensures Listed(fs', b)
  {
    hide Direct;
    var k :| 0 <= k < |List(fs, a)| && List(fs, a)[k] == b;
    assert List(fs', a)[k] == b;
  }

  lemma AccountsTwice(fs: Fs, mid: Fs, fs': Fs)
    requires Accounts(fs, mid) && Accounts(mid, fs')
    ensures Accounts(fs, fs')
  {
    hide Direct;
    forall j | 0 <= j < |fs.blockBits| && fs'.blockBits[j] && !fs.blockBits[j] ensures Listed(fs', j + 1) {
      if mid.blockBits[j] {
        var a :| Live(mid, a) && j + 1 in List(mid, a);
        StillListed(mid, fs', a, j + 1);
      }
    }
  }

  /** A step that marks nothing and keeps all lists. */
  lemma SameAccounts(fs: Fs, fs': Fs)
    requires fs'.blockBits == fs.blockBits && fs'.data.Keys == fs.data.Keys
    requires forall a :: Live(fs, a) ==> Live(fs', a) && List(fs', a) == List(fs, a)
    ensures Accounts(fs, fs')
  {
    hide Direct;
  }

  // ----- growth and writes -----

  lemma AddBlockAccounts(fs: Fs, ino: nat)
    requires Inv(fs) && Live(fs, ino) && CanAddBlock(fs, ino)
    ensures Accounts(fs, AddBlock(fs, ino).1)
  {
    hide Inv, Direct, DirectOnly, FreeFrom, Owned, Ok, A.MetaMarked, Undisturbed, Disjoint, CanAddBlock, Grows;
    var (n, grown) := AddBlock(fs, ino);
    G.AddBlockAppends(fs, ino);
    AddBlockMarks(fs, ino);
    hide AddBlock, Marked;
    forall a | Live(fs, a) ensures Live(grown, a) && List(fs, a) <= List(grown, a) {
      assert a != ino ==> Undisturbed(fs, grown, a);
      if a != ino {
        SameList(fs, grown, a);
      }
    }
    assert List(grown, ino)[|List(fs, ino)|] == n;
    hide Live;
  }

  lemma AddBlockMarks(fs: Fs, ino: nat)
    requires CanAddBlock(fs, ino)
    ensures var (n, grown) := AddBlock(fs, ino);
            && |grown.blockBits| == |fs.blockBits|
            && forall j :: 0 <= j < |fs.blockBits| && grown.blockBits[j] && !fs.blockBits[j] ==> j + 1 == n
  {
    hide FreeFrom, Direct;
  }

  lemma {:induction false} GrowAccounts(fs: Fs, ino: nat, count: nat)
    requires Inv(fs) && LiveFile(fs, ino) && CanGrow(fs, ino, count)
    ensures Ok(fs) && Accounts(fs, Grow(fs, ino, count))
    decreases count
  {
    InvOk(fs);
    hide Inv, Ok, Direct, CanAddBlock, CanGrow, AddBlock, Grow, Changes, Accounts;
    if count == 0 {
      GrowNone(fs, ino);
      SameAccounts(fs, fs);
    } else {
      GrowUnfolds(fs, ino, count);
      AddBlockExtends(fs, ino);
      AddBlockAccounts(fs, ino);
      GrowAccounts(AddBlock(fs, ino).1, ino, count - 1);
      AccountsTwice(fs, AddBlock(fs, ino).1, Grow(fs, ino, count));
    }
  }

  lemma DressAccounts(fs: Fs, ino: nat, size: nat, now: nat, data: map<nat, Block>)
    requires IsInode(fs, ino) && data.Keys == fs.data.Keys
    ensures Accounts(fs, Dress(fs, ino, size, now, data))
  {
    hide P.UpToZero;
    var fs' := Dress(fs, ino, size, now, data);
    DressedList(fs, ino, size, now, data);
    forall a | Live(fs, a) ensures Live(fs', a) && List(fs', a) == List(fs, a) {
    }
    SameAccounts(fs, fs');
  }

  lemma StraightAccounts(fs: Fs, ino: nat, offset: nat, bytes: seq<byte>, now: nat)
    requires Inv(fs) && LiveFile(fs, ino) && RoomFor(fs, ino, offset, |bytes|, now)
    ensures CanWrite(fs, ino, offset, |bytes|, now)
    ensures Accounts(fs, WriteFile(fs, ino, offset, bytes, now))
  {
    hide Inv, Ok, CanGrow, Grow, Patch, Shortage, CanWrite, WriteFile, LiveFile, Held, Within, Direct, Accounts, Dress;
    WriteNormal(fs, ino, offset, bytes, now);
    GrowAccounts(fs, ino, Shortage(fs, ino, offset + |bytes|));
    GrowKeeps(fs, ino, Shortage(fs, ino, offset + |bytes|));
    var grown := Grown(fs, ino, offset + |bytes|);
    var size := Max(GetInode(fs, ino).size, offset + |bytes|);
    var data := Patch(fs.data, List(grown, ino), offset, bytes);
    DressAccounts(grown, ino, size, now, data);
    AccountsTwice(fs, grown, Dress(grown, ino, size, now, data));
  }

  /** A write accounts for the blocks it allocates. */
  lemma WriteAccounts(fs: Fs, ino: nat, offset: nat, bytes: seq<byte>, now: nat)
    requires Inv(fs) && LiveFile(fs, ino) && RoomToWrite(fs, ino, offset, |bytes|, now)
    ensures CanWrite(fs, ino, offset, |bytes|, now)
    ensures Accounts(fs, WriteFile(fs, ino, offset, bytes, now))
  {
    hide Inv, CanWrite, WriteFile, CanGrow, Shortage, Accounts;
    WritePossible(fs, ino, offset, |bytes|, now);
    WrapsBeyond(offset, |bytes|);
    var end := Wrap(offset + |bytes|);
    assert Bounded(end, 0) && Wrap(end + 0) == end;
    hide LiveFile, Wrap;
    if offset + |bytes| < 0x1_0000_0000 {
      RoomFits(fs, ino, offset, |bytes|, now);
      hide RoomFor;
      StraightAccounts(fs, ino, offset, bytes, now);
    } else {
      WriteWraps(fs, ino, offset, bytes, now);
      StraightAccounts(fs, ino, end, [], now);
    }
  }

  lemma AccessAccounts(fs: Fs, ino: nat, now: nat)
    requires IsInode(fs, ino)
    ensures Accounts(fs, Accessed(fs, ino, now))
  {
    hide P.UpToZero;
    var fs' := Accessed(fs, ino, now);
    SameAccounts(fs, fs');
  }

  // ----- creation -----

  lemma BornFileAccounts(fs: Fs, now: nat)
    requires Inv(fs) && Ialloc(fs).0 != 0 && Word(now)
    ensures var (nid, fs1) := Ialloc(fs);
            IsInode(fs1, nid) && Accounts(fs, BornFile(fs1, nid, now))
  {
    hide Inv, Direct, InitInode, NextFreeInode, Undisturbed, Grows, Ok, A.MetaMarked, Disjoint;
    BornFileKeeps(fs, now);
    var born := BornFile(Ialloc(fs).1, Ialloc(fs).0, now);
    forall a | Live(fs, a) ensures Live(born, a) && List(born, a) == List(fs, a) {
      assert Undisturbed(fs, born, a);
      SameList(fs, born, a);
    }
    SameAccounts(fs, born);
  }

  lemma BornDirAccounts(fs: Fs, father: nat, now: nat)
    requires Inv(fs) && Ialloc(fs).0 != 0 && Word(now) && LiveDir(fs, father)
    requires Ok(Ialloc(fs).1) && CanAllocate(Ialloc(fs).1, Hint(Ialloc(fs).1, Ialloc(fs).0), 1)
    ensures var (nid, fs1) := Ialloc(fs);
            IsInode(fs1, nid) && Accounts(fs, BornDir(fs1, nid, father, now))
  {
    hide Inv, Direct, DirectOnly, InitInode, NextFreeInode, Undisturbed, Grows, Ok, A.MetaMarked, Disjoint, FreeFrom,
         B.InitBlock, BornDir, FirstFree, Find, AllBlocks, D.Ordinary;
    BornDirKeeps(fs, father, now);
    AllocatedInode(fs);
    var (nid, fs1) := Ialloc(fs);
    BornDirList(fs1, nid, father, now);
    var born, n := BornDir(fs1, nid, father, now), FirstFree(fs1, nid);
    forall a | Live(fs, a) ensures Live(born, a) && List(fs, a) <= List(born, a) {
      assert Undisturbed(fs, born, a);
      SameList(fs, born, a);
    }
    assert List(born, nid)[0] == n && Listed(born, n);
  }

  lemma AddEntryAccounts(fs: Fs, ino: nat, e: Entry)
    requires Inv(fs) && Live(fs, ino) && CanAddEntry(fs, ino, e)
    ensures Accounts(fs, AddEntry(fs, ino, e))
  {
    assert EntryOk(e) && DirBlocksOk(fs, AllBlocks(fs, ino));
    InvOk(fs);
    hide Inv, Direct, AllBlocks, B.Chain, B.Parse, B.AddEntry, B.InitBlock, FirstTaker, CanAddEntry, AddEntry, AddBlock,
         CanAddBlock, EntryOk, FirstEntry, Ok, A.MetaMarked, Father, Accounts;
    var k := FirstTaker(fs, AllBlocks(fs, ino), e, 0);
    if k < |AllBlocks(fs, ino)| {
      AddEntryInBlock(fs, ino, e, k);
      PutAccounts(fs, AllBlocks(fs, ino)[k], B.AddEntry(fs.data[AllBlocks(fs, ino)[k]], e).1);
    } else {
      D.NewBlockFacts(fs, ino, e);
      AddBlockAccounts(fs, ino);
      var (n, grown) := AddBlock(fs, ino);
      PutAccounts(grown, n, AddEntry(fs, ino, e).data[n]);
      AccountsTwice(fs, grown, AddEntry(fs, ino, e));
    }
  }

  lemma PutAccounts(fs: Fs, b: nat, block: Block)
    requires b in fs.data
    ensures Accounts(fs, PutData(fs, b, block))
  {
    hide Direct;
    SameAccounts(fs, PutData(fs, b, block));
  }

  lemma MakeFileAccounts(fs: Fs, dir: nat, name: Name, now: nat)
    requires Inv(fs) && LiveDir(fs, dir) && CanMakeFile(fs, dir, name, now)
    ensures Accounts(fs, MakeFile(fs, dir, name, now).1)
  {
    hide Inv, Direct, AllBlocks, Find, CanAddEntry, AddEntry, Ialloc, BornFile, Accounts, Changes, Born, DirBlocksOk;
    if IsFree(fs, dir, name) {
      BornFileKeeps(fs, now);
      BornFileAccounts(fs, now);
      var born := BornFile(Ialloc(fs).1, Ialloc(fs).0, now);
      G.ChangesGrows(fs, born, Ialloc(fs).0);
      AddEntryAccounts(born, dir, Entry(Ialloc(fs).0, FT_REG_FILE, name));
      AccountsTwice(fs, born, MakeFile(fs, dir, name, now).1);
    } else {
      SameAccounts(fs, fs);
    }
  }

  lemma MakeDirAccounts(fs: Fs, dir: nat, name: Name, now: nat)
    requires Inv(fs) && LiveDir(fs, dir) && CanMakeDir(fs, dir, name, now)
    ensures Accounts(fs, FindOrMake(fs, dir, name, now).2)
  {
    hide Inv, Direct, AllBlocks, Find, CanAddEntry, AddEntry, Ialloc, BornDir, Accounts, Changes, Born, DirBlocksOk,
         FreshDir, Ok, FreeFrom;
    if IsFree(fs, dir, name) {
      BornDirKeeps(fs, dir, now);
      BornDirAccounts(fs, dir, now);
      var born := BornDir(Ialloc(fs).1, Ialloc(fs).0, dir, now);
      G.ChangesGrows(fs, born, Ialloc(fs).0);
      AddEntryAccounts(born, dir, Entry(Ialloc(fs).0, FT_DIR, name));
      AccountsTwice(fs, born, FindOrMake(fs, dir, name, now).2);
    } else {
      SameAccounts(fs, fs);
    }
  }
}
