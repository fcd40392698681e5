/** Regular files: growth, reading and writing, as functions on the file system, and what they mean. */
module Files {
  import opened Bytes
  import opened Geometry
  import opened Inodes
  import opened Fs
  import opened Invariant
  import opened FileData
  import A = Allocation
  import G = Growth
  import L = LruModel
  import P = PointerTree

  // ----- one allocation after the other -----

  lemma {:induction false} FreeInWithout(bits: seq<bool>, n: nat, lo: nat, hi: nat)
    requires lo <= hi <= |bits|
    ensures FreeIn(Marked(bits, [n]), lo, hi) == L.Without(FreeIn(bits, lo, hi), n)
    decreases hi - lo
  {
    if lo < hi {
      FreeInWithout(bits, n, lo + 1, hi);
      var rest := FreeIn(bits, lo + 1, hi);
      assert ([lo + 1] + rest)[1..] == rest;
    }
  }

  lemma {:induction false} ScanFreeWithout(g: Geo, bits: seq<bool>, n: nat, i: nat, count: nat)
    requires i < g.groups && |bits| == g.Blocks()
    ensures ScanFree(g, Marked(bits, [n]), i, count) == L.Without(ScanFree(g, bits, i, count), n)
    decreases count
  {
    if count > 0 {
      hide FreeIn, Marked, L.Without, BlockBase;
      GroupWithin(g, i);
      FreeInWithout(bits, n, BlockBase(g, i), BlockBase(g, i) + g.blocksPerGroup);
      ScanFreeWithout(g, bits, n, Next(g, i), count - 1);
      L.WithoutConcat(GroupFree(g, bits, i), ScanFree(g, bits, Next(g, i), count - 1), n);
    } else {
      assert L.Without([], n) == [];
    }
  }

  lemma AscendsDistinct(g: Geo, i: nat, s: seq<nat>)
    requires g.Ok() && i < g.groups && A.Ascending(g, i, s)
    ensures L.Distinct(s)
  {
    hide A.Rank;
  }

  /** Taking the first free block leaves the others in the same order. */
  lemma FreeFromTail(fs: Fs, group: nat)
    requires Ok(fs) && group < fs.g.groups && FreeFrom(fs, group) != []
    ensures FreeFrom(MarkBlocks(fs, [FreeFrom(fs, group)[0]]), group) == FreeFrom(fs, group)[1..]
  {
    hide ScanFree, A.Rank, A.Ascending, Marked, L.Without, L.Distinct;
    var all := FreeFrom(fs, group);
    A.ScanFreeAscends(fs.g, fs.blockBits, group, fs.g.groups - 1);
    ScanFreeWithout(fs.g, fs.blockBits, all[0], group, fs.g.groups - 1);
    AscendsDistinct(fs.g, group, all);
    HeadWithout(all);
  }

  lemma HeadWithout(s: seq<nat>)
    requires L.Distinct(s) && s != []
    ensures L.Without(s, s[0]) == s[1..]
  {
    assert s == [s[0]] + s[1..];
    L.WithoutDistinct(s[1..], s[0]);
  }

  lemma FreeFromSame(fs: Fs, fs': Fs, group: nat)
    requires fs.g.Ok() && group < fs.g.groups && |fs.blockBits| == fs.g.Blocks()
    requires fs'.g == fs.g && fs'.blockBits == fs.blockBits
    ensures FreeFrom(fs', group) == FreeFrom(fs, group)
  {
  }

  /** What growing by `count` direct blocks needs; `count` may be 0. */
  predicate CanGrow(fs: Fs, ino: nat, count: nat) {
    && IsInode(fs, ino) && fs.g.Ok()
    && (count > 0 ==>
          && DirectOnly(GetInode(fs, ino)) && |Direct(GetInode(fs, ino))| + count <= DIRECT_BLOCKS
          && CanAllocate(fs, Hint(fs, ino), count))
  }

  lemma GrowStep(fs: Fs, ino: nat, count: nat)
    requires Ok(fs) && CanGrow(fs, ino, count) && count > 0
    ensures CanAddBlock(fs, ino)
    ensures Ok(AddBlock(fs, ino).1) && CanGrow(AddBlock(fs, ino).1, ino, count - 1)
    ensures AddBlock(fs, ino).0 == FreeFrom(fs, Hint(fs, ino))[0] && AddBlock(fs, ino).1.g == fs.g
    ensures List(AddBlock(fs, ino).1, ino) == List(fs, ino) + [AddBlock(fs, ino).0]
    ensures FreeFrom(AddBlock(fs, ino).1, Hint(fs, ino)) == FreeFrom(fs, Hint(fs, ino))[1..]
  {
    assert Word(fs.g.Blocks());
    hide Direct, DirectOnly, FreeFrom, Marked, Geo.Ok, InodeOk;
    var i, n := GetInode(fs, ino), FreeFrom(fs, Hint(fs, ino))[0];
    A.FreeFromBounds(fs, Hint(fs, ino), 0);
    FreeFromTail(fs, Hint(fs, ino));
    G.DirectExtended(i, n);
    FreeFromSame(MarkBlocks(fs, [n]), AddBlock(fs, ino).1, Hint(fs, ino));
  }

  /** `count` calls of `add_block_to_inode`. */
  function Grow(fs: Fs, ino: nat, count: nat): (grown: Fs)
    requires Ok(fs) && CanGrow(fs, ino, count)
    ensures Ok(grown) && IsInode(grown, ino)
    decreases count, fs
  {
    if count == 0 then fs
    else
      GrowStep(fs, ino, count);
      Grow(AddBlock(fs, ino).1, ino, count - 1)
  }

  lemma GrowUnfolds(fs: Fs, ino: nat, count: nat)
    requires Ok(fs) && CanGrow(fs, ino, count) && count > 0
    ensures CanAddBlock(fs, ino)
    ensures Ok(AddBlock(fs, ino).1) && CanGrow(AddBlock(fs, ino).1, ino, count - 1)
    ensures Grow(fs, ino, count) == Grow(AddBlock(fs, ino).1, ino, count - 1)
  {
    hide Ok, CanGrow, CanAddBlock, AddBlock;
    GrowStep(fs, ino, count);
  }

  lemma CanGrowMeans(fs: Fs, ino: nat, count: nat)
    requires CanGrow(fs, ino, count)
    ensures IsInode(fs, ino) && fs.g.Ok() && (count > 0 ==> CanAllocate(fs, Hint(fs, ino), count))
  {
  }

  lemma TakeFirst(base: seq<nat>, all: seq<nat>, count: nat)
    requires 1 <= count <= |all|
    ensures base + [all[0]] + all[1..][..count - 1] == base + all[..count]
  {
  }

  /** Growing block by block finds the same blocks as one allocation of all of them would. */
  lemma {:induction false} GrowMeans(fs: Fs, ino: nat, count: nat)
    requires Ok(fs) && CanGrow(fs, ino, count) && count > 0
    ensures fs.g.Ok() && IsInode(fs, ino) && CanAllocate(fs, Hint(fs, ino), count)
    ensures List(Grow(fs, ino, count), ino) == List(fs, ino) + FreeFrom(fs, Hint(fs, ino))[..count]
    decreases count
  {
    CanGrowMeans(fs, ino, count);
    hide Ok, CanGrow, CanAddBlock, FreeFrom, Direct, Grow, AddBlock, Geo.Ok;
    GrowStep(fs, ino, count);
    GrowUnfolds(fs, ino, count);
    var fs1 := AddBlock(fs, ino).1;
    TakeFirst(List(fs, ino), FreeFrom(fs, Hint(fs, ino)), count);
    if count == 1 {
      assert Grow(fs1, ino, 0) == fs1 by { GrowNone(fs1, ino); }
    } else {
      GrowMeans(fs1, ino, count - 1);
    }
  }

  lemma GrowNone(fs: Fs, ino: nat)
    requires Ok(fs) && CanGrow(fs, ino, 0)
    ensures Grow(fs, ino, 0) == fs
  {
  }

  lemma CanGrowLess(fs: Fs, ino: nat, m: nat, n: nat)
    requires CanGrow(fs, ino, m + n)
    ensures CanGrow(fs, ino, m)
  {
    hide Direct, DirectOnly, FreeFrom;
  }

  lemma {:induction false} GrowTwice(fs: Fs, ino: nat, m: nat, n: nat)
    requires Ok(fs) && CanGrow(fs, ino, m + n)
    ensures CanGrow(fs, ino, m) && CanGrow(Grow(fs, ino, m), ino, n)
    ensures Grow(Grow(fs, ino, m), ino, n) == Grow(fs, ino, m + n)
    decreases m
  {
    hide Ok, CanGrow, CanAddBlock, AddBlock, Direct, Grow;
    CanGrowLess(fs, ino, m, n);
    if m > 0 {
      GrowUnfolds(fs, ino, m + n);
      GrowUnfolds(fs, ino, m);
      GrowTwice(AddBlock(fs, ino).1, ino, m - 1, n);
    } else {
      GrowNone(fs, ino);
    }
  }

  // ----- sizes, times and data do not influence growth -----

  /** The same file system with another size, other times and other data for one inode. */
  function Dress(fs: Fs, ino: nat, size: nat, now: nat, data: map<nat, Block>): Fs
    requires IsInode(fs, ino)
  {
    PutInode(fs, ino, GetInode(fs, ino).(size := size, atime := now, mtime := now)).(data := data)
  }

  lemma DressOk(fs: Fs, ino: nat, size: nat, now: nat, data: map<nat, Block>)
    requires Ok(fs) && IsInode(fs, ino) && Word(size) && Word(now) && data.Keys == fs.data.Keys
    ensures Ok(Dress(fs, ino, size, now, data)) && IsInode(Dress(fs, ino, size, now, data), ino)
    ensures List(Dress(fs, ino, size, now, data), ino) == List(fs, ino)
  {
    var i := GetInode(fs, ino);
    assert InodeOk(i.(size := size, atime := now, mtime := now));
    assert forall b :: b in data <==> b in fs.data;
    hide P.UpToZero, InodeOk;
  }

  lemma DressCanGrow(fs: Fs, ino: nat, size: nat, now: nat, data: map<nat, Block>, count: nat)
    requires IsInode(fs, ino) && CanGrow(fs, ino, count)
    ensures CanGrow(Dress(fs, ino, size, now, data), ino, count)
  {
    hide P.UpToZero, FreeFrom;
    if count > 0 {
      FreeFromSame(fs, Dress(fs, ino, size, now, data), Hint(fs, ino));
    }
  }

  lemma DressAddBlock(fs: Fs, ino: nat, size: nat, now: nat, data: map<nat, Block>)
    requires CanAddBlock(fs, ino)
    ensures var dressed := Dress(fs, ino, size, now, data);
            && CanAddBlock(dressed, ino)
            && AddBlock(dressed, ino).1 == Dress(AddBlock(fs, ino).1, ino, size, now, data)
  {
    hide P.UpToZero, ScanFree, Marked, Geo.Ok;
    var dressed := Dress(fs, ino, size, now, data);
    var a, b := AddBlock(dressed, ino).1, Dress(AddBlock(fs, ino).1, ino, size, now, data);
    assert a.inodes == b.inodes;
  }

  lemma {:induction false} DressGrow(fs: Fs, ino: nat, size: nat, now: nat, data: map<nat, Block>, count: nat)
    requires Ok(fs) && IsInode(fs, ino) && CanGrow(fs, ino, count)
    requires Word(size) && Word(now) && data.Keys == fs.data.Keys
    ensures var dressed := Dress(fs, ino, size, now, data);
            && Ok(dressed) && CanGrow(dressed, ino, count)
            && Grow(dressed, ino, count) == Dress(Grow(fs, ino, count), ino, size, now, data)
    decreases count
  {
    hide Ok, CanGrow, CanAddBlock, AddBlock, Direct, Grow, Dress;
    var dressed := Dress(fs, ino, size, now, data);
    DressOk(fs, ino, size, now, data);
    DressCanGrow(fs, ino, size, now, data, count);
    if count > 0 {
      GrowUnfolds(fs, ino, count);
      GrowUnfolds(dressed, ino, count);
      DressAddBlock(fs, ino, size, now, data);
      AddBlockData(fs, ino);
      DressGrow(AddBlock(fs, ino).1, ino, size, now, data, count - 1);
    } else {
      GrowNone(fs, ino);
      GrowNone(dressed, ino);
    }
  }

  lemma AddBlockData(fs: Fs, ino: nat)
    requires CanAddBlock(fs, ino)
    ensures AddBlock(fs, ino).1.data == fs.data && IsInode(AddBlock(fs, ino).1, ino)
  {
    hide Direct, FreeFrom, Marked;
  }

  // ----- write -----

  /** The blocks that `write` adds before it stores bytes up to `end`. */
  function Shortage(fs: Fs, ino: nat, end: nat): nat
    requires IsInode(fs, ino)
  {
    if end / BLOCK_SIZE < |AllBlocks(fs, ino)| then 0 else end / BLOCK_SIZE - |AllBlocks(fs, ino)| + 1
  }

  /** Offsets have 32 bits; a longer range could wrap around into the very block in which it starts. */
  predicate Bounded(offset: nat, n: nat) {
    Word(offset) && n < 0x1_0000_0000 - BLOCK_SIZE
  }

  /** The end has wrapped around to a block before the start, and the loop over the blocks is empty. */
  predicate WrapsAround(offset: nat, n: nat) {
    Wrap(offset + n) / BLOCK_SIZE < offset / BLOCK_SIZE
  }

  lemma WrapsBeyond(offset: nat, n: nat)
    requires Bounded(offset, n)
    ensures WrapsAround(offset, n) <==> offset + n >= 0x1_0000_0000
    ensures Wrap(offset + n) == if offset + n < 0x1_0000_0000 then offset + n else offset + n - 0x1_0000_0000
  {
  }

  /** Storing `n` bytes needs a readable block list and room for as many direct blocks as are short. */
  ghost predicate CanStore(fs: Fs, ino: nat, offset: nat, n: nat) {
    && Ok(fs) && A.MetaMarked(fs) && IsInode(fs, ino) && Bounded(offset, n)
    && TreesOk(fs, GetInode(fs, ino)) && Held(fs.data, AllBlocks(fs, ino))
    && CanGrow(fs, ino, Shortage(fs, ino, Wrap(offset + n)))
  }

  lemma FreshInData(fs: Fs, group: nat, count: nat)
    requires Ok(fs) && A.MetaMarked(fs) && CanAllocate(fs, group, count)
    ensures Held(fs.data, FreeFrom(fs, group)[..count])
  {
    A.BallocsMeans(fs, group, count);
  }

  lemma {:induction false} GrowFrame(fs: Fs, ino: nat, count: nat)
    requires Ok(fs) && CanGrow(fs, ino, count)
    ensures Grow(fs, ino, count).data == fs.data
    ensures count > 0 ==> DirectOnly(GetInode(Grow(fs, ino, count), ino))
    decreases count
  {
    hide Ok, CanGrow, CanAddBlock, AddBlock, Direct, Grow, DirectOnly;
    if count > 0 {
      GrowUnfolds(fs, ino, count);
      AddBlockData(fs, ino);
      GrowFrame(AddBlock(fs, ino).1, ino, count - 1);
      if count == 1 {
        GrownDirect(fs, ino);
        GrowNone(AddBlock(fs, ino).1, ino);
      }
    } else {
      GrowNone(fs, ino);
    }
  }

  lemma GrownDirect(fs: Fs, ino: nat)
    requires Ok(fs) && CanGrow(fs, ino, 1)
    ensures CanAddBlock(fs, ino) && DirectOnly(GetInode(AddBlock(fs, ino).1, ino))
  {
    GrowStep(fs, ino, 1);
    A.FreeFromBounds(fs, Hint(fs, ino), 0);
    G.DirectExtended(GetInode(fs, ino), FreeFrom(fs, Hint(fs, ino))[0]);
    hide Direct, DirectOnly, ScanFree, Marked, Geo.Ok, InodeOk;
  }

  /** After the growth loop the list holds the block in which `end` lies. */
  lemma GrownReaches(fs: Fs, ino: nat, end: nat)
    requires Ok(fs) && A.MetaMarked(fs) && IsInode(fs, ino) && Held(fs.data, AllBlocks(fs, ino))
    requires CanGrow(fs, ino, Shortage(fs, ino, end))
    ensures var grown := Grow(fs, ino, Shortage(fs, ino, end));
            && grown.data == fs.data && Held(grown.data, AllBlocks(grown, ino))
            && end / BLOCK_SIZE < |AllBlocks(grown, ino)| && AllBlocks(fs, ino) <= AllBlocks(grown, ino)
  {
    var count := Shortage(fs, ino, end);
    GrowFrame(fs, ino, count);
    if count > 0 {
      var grown := Grow(fs, ino, count);
      assert DirectOnly(GetInode(fs, ino));
      AllBlocksDirect(fs, ino);
      AllBlocksDirect(grown, ino);
      hide Direct, DirectOnly, AllBlocks, Ok, A.MetaMarked, TreesOk, Grow;
      GrowMeans(fs, ino, count);
      FreshInData(fs, Hint(fs, ino), count);
    }
  }

  lemma GrownHolds(fs: Fs, ino: nat, offset: nat, n: nat)
    requires CanStore(fs, ino, offset, n)
    ensures var grown := Grow(fs, ino, Shortage(fs, ino, Wrap(offset + n)));
            && grown.data == fs.data && Held(grown.data, AllBlocks(grown, ino))
            && (!WrapsAround(offset, n) ==> Within(AllBlocks(grown, ino), offset, n))
            && AllBlocks(fs, ino) <= AllBlocks(grown, ino)
  {
    hide AllBlocks, Ok, A.MetaMarked, TreesOk, Grow, CanGrow, Held;
    WrapsBeyond(offset, n);
    GrownReaches(fs, ino, Wrap(offset + n));
  }

  /** Grows the block list if the range ends behind it, then stores the bytes block by block. */
  function Store(fs: Fs, ino: nat, offset: nat, bytes: seq<byte>): Fs
    requires CanStore(fs, ino, offset, |bytes|)
  {
    var grown := Grow(fs, ino, Shortage(fs, ino, Wrap(offset + |bytes|)));
    GrownHolds(fs, ino, offset, |bytes|);
    if WrapsAround(offset, |bytes|) then grown
    else grown.(data := Patch(grown.data, AllBlocks(grown, ino), offset, bytes))
  }

  function Max(a: nat, b: nat): nat {
    if a < b then b else a
  }

  /** The inode as `write` rewrites it first: the new size and times. */
  function Sized(fs: Fs, ino: nat, end: nat, now: nat): Fs
    requires IsInode(fs, ino)
  {
    var i := GetInode(fs, ino);
    PutInode(fs, ino, i.(size := Max(i.size, end), atime := now, mtime := now))
  }

  ghost predicate CanWrite(fs: Fs, ino: nat, offset: nat, n: nat, now: nat) {
    IsInode(fs, ino) && Word(now) && CanStore(Sized(fs, ino, Wrap(offset + n), now), ino, offset, n)
  }

  function WriteFile(fs: Fs, ino: nat, offset: nat, bytes: seq<byte>, now: nat): Fs
    requires CanWrite(fs, ino, offset, |bytes|, now)
  {
    Store(Sized(fs, ino, Wrap(offset + |bytes|), now), ino, offset, bytes)
  }

  // ----- what a write to a live file keeps -----

  /** A live regular file. */
  predicate LiveFile(fs: Fs, ino: nat) {
    Live(fs, ino) && IsReg(GetInode(fs, ino))
  }

  lemma FileFacts(fs: Fs, ino: nat)
    requires Inv(fs) && LiveFile(fs, ino)
    ensures DirectOnly(GetInode(fs, ino)) && Owned(fs, List(fs, ino)) && Covers(GetInode(fs, ino))
    ensures AllBlocks(fs, ino) == List(fs, ino) && TreesOk(fs, GetInode(fs, ino)) && Held(fs.data, List(fs, ino))
  {
    assert NodeGood(fs, ino);
    AllBlocksDirect(fs, ino);
    hide DirectOnly, DirGood, TreesOk, L.Distinct;
  }

  /** The inode is rewritten with the same pointers, and only its own blocks get new data. */
  ghost predicate OwnUpdate(fs: Fs, fs': Fs, ino: nat) {
    && IsInode(fs, ino) && IsInode(fs', ino)
    && fs'.g == fs.g && fs'.blockBits == fs.blockBits && fs'.inodeBits == fs.inodeBits
    && fs'.inodes == fs.inodes[ino - 1 := GetInode(fs', ino)]
    && InodeOk(GetInode(fs', ino)) && GetInode(fs', ino).block == GetInode(fs, ino).block
    && fs'.data.Keys == fs.data.Keys
    && forall b :: b in fs.data && b !in List(fs, ino) ==> fs'.data[b] == fs.data[b]
  }

  lemma OwnUpdateOk(fs: Fs, fs': Fs, ino: nat)
    requires Ok(fs) && A.MetaMarked(fs) && OwnUpdate(fs, fs', ino)
    ensures Ok(fs') && A.MetaMarked(fs') && List(fs', ino) == List(fs, ino)
  {
    assert forall b :: b in fs'.data <==> b in fs.data;
    hide P.UpToZero, InodeOk;
  }

  lemma OtherUnaffected(fs: Fs, fs': Fs, ino: nat, a: nat)
    requires Inv(fs) && Live(fs, ino) && OwnUpdate(fs, fs', ino) && Live(fs, a) && a != ino
    ensures Undisturbed(fs, fs', a) && Disjoint(List(fs, a), List(fs, ino))
  {
    hide Inv, Direct, Owned;
    G.LiveOwned(fs, a);
    G.OwnedData(fs, List(fs, a));
    G.ListsDisjoint(fs, a, ino);
    assert forall k :: 0 <= k < |List(fs, a)| ==> List(fs, a)[k] in List(fs, a);
  }

  lemma OwnUpdateChanges(fs: Fs, fs': Fs, ino: nat)
    requires Inv(fs) && Live(fs, ino) && OwnUpdate(fs, fs', ino) && List(fs', ino) == List(fs, ino)
    ensures Changes(fs, fs', ino)
  {
    assert Grows(fs, fs') by { hide Inv, Direct, InodeOk; }
    hide Inv, Direct, Disjoint, Undisturbed, Grows, InodeOk;
    forall a | Live(fs, a) && a != ino
      ensures Undisturbed(fs, fs', a) && Disjoint(List(fs, a), List(fs', ino))
    {
      OtherUnaffected(fs, fs', ino, a);
    }
  }

  /** Rewriting a live file's inode and its own blocks keeps the invariant if the new size is covered. */
  lemma OwnUpdateKeeps(fs: Fs, fs': Fs, ino: nat)
    requires Inv(fs) && LiveFile(fs, ino) && OwnUpdate(fs, fs', ino)
    requires LiveFile(fs', ino) && Covers(GetInode(fs', ino))
    ensures Inv(fs') && Changes(fs, fs', ino) && List(fs', ino) == List(fs, ino)
  {
    FileFacts(fs, ino);
    OwnUpdateOk(fs, fs', ino);
    OwnUpdateChanges(fs, fs', ino);
    assert Owned(fs', List(fs, ino)) by { hide Inv, Direct, Covers, TreesOk; }
    assert DirectOnly(GetInode(fs', ino)) by { hide P.UpToZero, Owned, Inv; }
    RootIsDir(fs);
    hide Inv, Direct, Owned, Covers, Changes, OwnUpdate, Ok, A.MetaMarked, Live, TreesOk, AllBlocks;
    ChangeKeeps(fs, fs', ino);
  }

  lemma RootIsDir(fs: Fs)
    requires Inv(fs)
    ensures !LiveFile(fs, ROOT_INODE)
  {
    hide AllGood, AllDisjoint, Ok, A.MetaMarked;
  }

  lemma ChangesSelf(fs: Fs, ino: nat)
    requires Inv(fs) && Live(fs, ino)
    ensures Changes(fs, fs, ino)
  {
    hide Inv, Direct, Owned, Disjoint;
    forall a | Live(fs, a) && a != ino ensures Undisturbed(fs, fs, a) && Disjoint(List(fs, a), List(fs, ino)) {
      G.LiveOwned(fs, a);
      G.OwnedData(fs, List(fs, a));
      G.ListsDisjoint(fs, a, ino);
    }
  }

  lemma UndisturbedTwice(fs: Fs, mid: Fs, fs': Fs, a: nat)
    requires Undisturbed(fs, mid, a) && Undisturbed(mid, fs', a)
    ensures Undisturbed(fs, fs', a)
  {
    SameList(fs, mid, a);
    hide P.UpToZero;
  }

  lemma ChangesTwice(fs: Fs, mid: Fs, fs': Fs, ino: nat)
    requires Changes(fs, mid, ino) && Changes(mid, fs', ino)
    ensures Changes(fs, fs', ino)
  {
    hide Direct, Disjoint, Undisturbed;
    forall a | Live(fs, a) && a != ino ensures Undisturbed(fs, fs', a) && Disjoint(List(fs, a), List(fs', ino)) {
      assert Live(mid, a);
      UndisturbedTwice(fs, mid, fs', a);
      SameList(fs, mid, a);
    }
  }

  lemma SameList(fs: Fs, fs': Fs, a: nat)
    requires Undisturbed(fs, fs', a)
    ensures IsInode(fs, a) && IsInode(fs', a) && List(fs', a) == List(fs, a)
  {
    hide P.UpToZero;
  }
}
