/** What reading and writing a live regular file means, whatever else lies on the disk. */
module FileTheory {
  import opened Bytes
  import opened Geometry
  import opened Inodes
  import opened Fs
  import opened Invariant
  import opened FileData
  import opened Files
  import A = Allocation
  import G = Growth
  import L = LruModel
  import P = PointerTree

  /** A live file with more blocks at the end of its list and nothing else changed. */
  ghost predicate Extended(fs: Fs, grown: Fs, ino: nat) {
    && Inv(grown) && LiveFile(grown, ino) && Changes(fs, grown, ino)
    && grown.data == fs.data && grown.super == fs.super && grown.g == fs.g && grown.inodeBits == fs.inodeBits
    && IsInode(fs, ino) && List(fs, ino) <= List(grown, ino)
    && GetInode(grown, ino) == GetInode(fs, ino).(block := GetInode(grown, ino).block)
  }

  lemma CoversMore(i: Inode, i': Inode)
    requires Covers(i) && i'.size == i.size && |Direct(i)| <= |Direct(i')|
    ensures Covers(i')
  {
  }

  lemma AddBlockExtends(fs: Fs, ino: nat)
    requires Inv(fs) && LiveFile(fs, ino) && CanAddBlock(fs, ino)
    ensures Extended(fs, AddBlock(fs, ino).1, ino)
  {
    FileFacts(fs, ino);
    RootIsDir(fs);
    hide Inv, Direct, DirectOnly, Owned, Covers, Changes, AddBlock, CanAddBlock, Ok, A.MetaMarked, TreesOk, AllBlocks,
         Held;
    G.AddBlockAppends(fs, ino);
    var grown := AddBlock(fs, ino).1;
    CoversMore(GetInode(fs, ino), GetInode(grown, ino));
    ChangeKeeps(fs, grown, ino);
  }

  lemma ExtendedTwice(fs: Fs, mid: Fs, grown: Fs, ino: nat)
    requires Extended(fs, mid, ino) && Extended(mid, grown, ino)
    ensures Extended(fs, grown, ino)
  {
    hide Inv, Direct, Changes, LiveFile;
    ChangesTwice(fs, mid, grown, ino);
  }

  /** Growing a live file keeps the invariant, the data and every other file. */
  lemma {:induction false} GrowKeeps(fs: Fs, ino: nat, count: nat)
    requires Inv(fs) && LiveFile(fs, ino) && CanGrow(fs, ino, count)
    ensures Extended(fs, Grow(fs, ino, count), ino)
    decreases count
  {
    assert Ok(fs);
    hide Inv, Ok, Direct, CanAddBlock, CanGrow, AddBlock, Grow, Changes;
    if count == 0 {
      GrowNone(fs, ino);
      ChangesSelf(fs, ino);
    } else {
      GrowUnfolds(fs, ino, count);
      AddBlockExtends(fs, ino);
      GrowKeeps(AddBlock(fs, ino).1, ino, count - 1);
      ExtendedTwice(fs, AddBlock(fs, ino).1, Grow(fs, ino, count), ino);
    }
  }

  // ----- write -----

  /** What a write to a live file needs: 32-bit numbers, and free blocks if the list is too short. */
  predicate RoomToWrite(fs: Fs, ino: nat, offset: nat, n: nat, now: nat) {
    && IsInode(fs, ino) && Bounded(offset, n) && Word(now)
    && CanGrow(fs, ino, Shortage(fs, ino, Wrap(offset + n)))
  }

  /** The same for a range that does not wrap around. */
  predicate RoomFor(fs: Fs, ino: nat, offset: nat, n: nat, now: nat) {
    && IsInode(fs, ino) && Bounded(offset, n) && offset + n < 0x1_0000_0000 && Word(now)
    && CanGrow(fs, ino, Shortage(fs, ino, offset + n))
  }

  lemma RoomFits(fs: Fs, ino: nat, offset: nat, n: nat, now: nat)
    requires RoomToWrite(fs, ino, offset, n, now) && offset + n < 0x1_0000_0000
    ensures RoomFor(fs, ino, offset, n, now)
  {
    hide CanGrow, Shortage;
    WrapsBeyond(offset, n);
  }

  /** The file system after the growth that a write up to `end` needs. */
  function Grown(fs: Fs, ino: nat, end: nat): (grown: Fs)
    requires Ok(fs) && IsInode(fs, ino) && CanGrow(fs, ino, Shortage(fs, ino, end))
    ensures IsInode(grown, ino)
  {
    Grow(fs, ino, Shortage(fs, ino, end))
  }

  /** The grown list reaches the end of the range. */
  ghost predicate Reaches(fs: Fs, ino: nat, offset: nat, n: nat) {
    && Ok(fs) && IsInode(fs, ino) && CanGrow(fs, ino, Shortage(fs, ino, offset + n))
    && Held(fs.data, List(Grown(fs, ino, offset + n), ino)) && Within(List(Grown(fs, ino, offset + n), ino), offset, n)
  }

  /** The write in one step: the grown file system with the new size, times and data. */
  function Written(fs: Fs, ino: nat, offset: nat, bytes: seq<byte>, now: nat): Fs
    requires Reaches(fs, ino, offset, |bytes|)
  {
    var grown := Grown(fs, ino, offset + |bytes|);
    Dress(grown, ino, Max(GetInode(fs, ino).size, offset + |bytes|), now,
          Patch(fs.data, List(grown, ino), offset, bytes))
  }

  lemma SizedIsDress(fs: Fs, ino: nat, end: nat, now: nat)
    requires IsInode(fs, ino)
    ensures Sized(fs, ino, end, now) == Dress(fs, ino, Max(GetInode(fs, ino).size, end), now, fs.data)
  {
  }

  /** Growing the file system with the new size and times already in the inode. */
  lemma DressedGrown(fs: Fs, ino: nat, offset: nat, n: nat, size: nat, now: nat)
    requires Inv(fs) && LiveFile(fs, ino) && Word(size) && Word(now) && CanGrow(fs, ino, Shortage(fs, ino, offset + n))
    requires Bounded(offset, n) && offset + n < 0x1_0000_0000
    ensures CanStore(Dress(fs, ino, size, now, fs.data), ino, offset, n) && Ok(fs)
    ensures var dressed := Dress(fs, ino, size, now, fs.data);
            && Shortage(dressed, ino, offset + n) == Shortage(fs, ino, offset + n)
            && Grow(dressed, ino, Shortage(fs, ino, offset + n))
               == Dress(Grown(fs, ino, offset + n), ino, size, now, fs.data)
  {
    InvOk(fs);
    FileFacts(fs, ino);
    hide Inv, Ok, A.MetaMarked, CanGrow, Grow, Held, TreesOk, Direct, DirectOnly, AllBlocks, Owned, Covers, LiveFile,
         Dress;
    WrapsBeyond(offset, n);
    DressStores(fs, ino, offset, n, size, now);
    DressGrow(fs, ino, size, now, fs.data, Shortage(fs, ino, offset + n));
  }

  lemma GrownBlocks(fs: Fs, ino: nat, offset: nat, n: nat, size: nat, now: nat)
    requires Inv(fs) && LiveFile(fs, ino) && CanGrow(fs, ino, Shortage(fs, ino, offset + n))
    ensures Ok(fs)
    ensures var grown := Grown(fs, ino, offset + n);
            && Extended(fs, grown, ino) && grown.data == fs.data
            && AllBlocks(Dress(grown, ino, size, now, fs.data), ino) == List(grown, ino)
  {
    InvOk(fs);
    GrowKeeps(fs, ino, Shortage(fs, ino, offset + n));
    var grown := Grown(fs, ino, offset + n);
    hide Ok, CanGrow, Grow, Held, TreesOk, Direct, DirectOnly, AllBlocks, Owned, Covers, Changes;
    FileFacts(grown, ino);
    hide Inv, LiveFile;
    DressedBlocks(grown, ino, size, now);
  }

  lemma TargetReaches(fs: Fs, ino: nat, offset: nat, n: nat)
    requires Inv(fs) && LiveFile(fs, ino) && CanGrow(fs, ino, Shortage(fs, ino, offset + n))
    ensures Reaches(fs, ino, offset, n)
  {
    hide Ok, CanGrow, Grow, Held, TreesOk, Direct, DirectOnly, AllBlocks, Owned, Covers, Changes, A.MetaMarked, Inv,
         Shortage;
    InvOk(fs);
    FileFacts(fs, ino);
    GrowKeeps(fs, ino, Shortage(fs, ino, offset + n));
    FileFacts(Grown(fs, ino, offset + n), ino);
    GrownReaches(fs, ino, offset + n);
  }

  /** The order in which the code changes the inode, the block list and the data does not matter. */
  lemma WriteNormal(fs: Fs, ino: nat, offset: nat, bytes: seq<byte>, now: nat)
    requires Inv(fs) && LiveFile(fs, ino) && RoomFor(fs, ino, offset, |bytes|, now)
    ensures CanWrite(fs, ino, offset, |bytes|, now) && Reaches(fs, ino, offset, |bytes|)
    ensures WriteFile(fs, ino, offset, bytes, now) == Written(fs, ino, offset, bytes, now)
  {
    hide Inv, Ok, CanGrow, Grow, Held, Within, AllBlocks, LiveFile, Dress, Patch, Extended, Sized, Direct, Shortage,
         Reaches, CanStore, Written, Store;
    var n := |bytes|;
    WrapsBeyond(offset, n);
    SizeBound(fs, ino, offset + n);
    var size := Max(GetInode(fs, ino).size, offset + n);
    TargetReaches(fs, ino, offset, n);
    DressedGrown(fs, ino, offset, n, size, now);
    GrownBlocks(fs, ino, offset, n, size, now);
    SizedIsDress(fs, ino, offset + n, now);
    StoreDressed(fs, ino, offset, bytes, size, now);
  }

  lemma SizeBound(fs: Fs, ino: nat, end: nat)
    requires Inv(fs) && IsInode(fs, ino) && Word(end)
    ensures Word(Max(GetInode(fs, ino).size, end))
  {
    InvOk(fs);
    hide Inv;
  }

  lemma StoreDressed(fs: Fs, ino: nat, offset: nat, bytes: seq<byte>, size: nat, now: nat)
    requires IsInode(fs, ino) && CanStore(Dress(fs, ino, size, now, fs.data), ino, offset, |bytes|)
    requires size == Max(GetInode(fs, ino).size, offset + |bytes|) && Reaches(fs, ino, offset, |bytes|)
    requires offset + |bytes| < 0x1_0000_0000
    requires var dressed, grown := Dress(fs, ino, size, now, fs.data), Grown(fs, ino, offset + |bytes|);
             && Grow(dressed, ino, Shortage(dressed, ino, Wrap(offset + |bytes|)))
                == Dress(grown, ino, size, now, fs.data)
             && AllBlocks(Dress(grown, ino, size, now, fs.data), ino) == List(grown, ino)
             && grown.data == fs.data
    ensures Store(Dress(fs, ino, size, now, fs.data), ino, offset, bytes) == Written(fs, ino, offset, bytes, now)
  {
    hide CanGrow, Grow, Held, Within, AllBlocks, Patch, Direct, Shortage, Ok, A.MetaMarked, TreesOk, Wrap, WrapsAround;
    WrapsBeyond(offset, |bytes|);
    hide CanStore, Bounded;
    var grown := Grown(fs, ino, offset + |bytes|);
  }

  lemma DressedBlocks(fs: Fs, ino: nat, size: nat, now: nat)
    requires IsInode(fs, ino) && DirectOnly(GetInode(fs, ino))
    ensures var dressed := Dress(fs, ino, size, now, fs.data);
            IsInode(dressed, ino) && TreesOk(dressed, GetInode(dressed, ino))
                && AllBlocks(dressed, ino) == List(fs, ino)
  {
    var dressed := Dress(fs, ino, size, now, fs.data);
    assert DirectOnly(GetInode(dressed, ino)) && List(dressed, ino) == List(fs, ino) by { hide P.UpToZero; }
    AllBlocksDirect(dressed, ino);
  }

  lemma DressStores(fs: Fs, ino: nat, offset: nat, n: nat, size: nat, now: nat)
    requires Ok(fs) && A.MetaMarked(fs) && IsInode(fs, ino) && DirectOnly(GetInode(fs, ino))
    requires AllBlocks(fs, ino) == List(fs, ino) && Held(fs.data, List(fs, ino))
    requires Word(size) && Word(now) && Bounded(offset, n) && CanGrow(fs, ino, Shortage(fs, ino, Wrap(offset + n)))
    ensures CanStore(Dress(fs, ino, size, now, fs.data), ino, offset, n)
    ensures var dressed := Dress(fs, ino, size, now, fs.data);
            Shortage(dressed, ino, Wrap(offset + n)) == Shortage(fs, ino, Wrap(offset + n))
  {
    DressOk(fs, ino, size, now, fs.data);
    DressedBlocks(fs, ino, size, now);
    DressCanGrow(fs, ino, size, now, fs.data, Shortage(fs, ino, Wrap(offset + n)));
    hide AllBlocks, Direct, DirectOnly, CanGrow, TreesOk, InodeOk, Wrap;
  }

  // ----- the file as a sequence of bytes -----

  /** The blocks can be read and reach the size. */
  ghost predicate Readable(fs: Fs, ino: nat) {
    && IsInode(fs, ino) && Held(fs.data, List(fs, ino))
    && GetInode(fs, ino).size <= BLOCK_SIZE * |List(fs, ino)|
  }

  /** The bytes of a file: its blocks one after the other, cut at the size. */
  function Content(fs: Fs, ino: nat): (bytes: seq<byte>)
    requires Readable(fs, ino)
    ensures |bytes| == GetInode(fs, ino).size
  {
    Flat(fs.data, List(fs, ino))[..GetInode(fs, ino).size]
  }

  lemma FileReadable(fs: Fs, ino: nat)
    requires Inv(fs) && LiveFile(fs, ino)
    ensures Readable(fs, ino)
  {
    FileFacts(fs, ino);
    hide Inv, Direct, DirectOnly, Owned, TreesOk, AllBlocks;
  }

  lemma FlatPrefix(data: map<nat, Block>, blocks: seq<nat>, more: seq<nat>, n: nat)
    requires Held(data, more) && blocks <= more && n <= BLOCK_SIZE * |blocks|
    ensures Held(data, blocks) && n <= BLOCK_SIZE * |more| && Flat(data, blocks)[..n] == Flat(data, more)[..n]
  {
    assert forall k :: 0 <= k < |blocks| ==> more[k] == blocks[k];
  }

  /** Sizes have 32 bits. */
  lemma ContentBound(fs: Fs, ino: nat)
    requires Inv(fs) && LiveFile(fs, ino)
    ensures Readable(fs, ino) && Word(|Content(fs, ino)|)
  {
    hide Inv, Direct, Flat;
    FileReadable(fs, ino);
    SizeBound(fs, ino, 0);
  }

  /** What a write leaves: the size, the list, the bytes stored and the bytes that were there. */
  ghost predicate Overwritten(before: seq<byte>, after: seq<byte>, offset: nat, bytes: seq<byte>) {
    && |after| == Max(|before|, offset + |bytes|)
    && after[offset..offset + |bytes|] == bytes
    && forall j :: 0 <= j < |before| && !(offset <= j < offset + |bytes|) ==> after[j] == before[j]
  }

  lemma SplicedContent(flat: seq<byte>, size: nat, offset: nat, bytes: seq<byte>)
    requires size <= |flat| && offset + |bytes| <= |flat|
    ensures Overwritten(flat[..size], Splice(flat, offset, bytes)[..Max(size, offset + |bytes|)], offset, bytes)
  {
    var flat' := Splice(flat, offset, bytes);
    assert flat'[..Max(size, offset + |bytes|)][offset..offset + |bytes|] == bytes;
  }

  /** A write seen as growth from `fs` to `grown`, and then new bytes, size and times for the same list. */
  ghost predicate WriteEffect(fs: Fs, grown: Fs, fs': Fs, ino: nat, offset: nat, bytes: seq<byte>) {
    && Inv(fs') && LiveFile(fs', ino) && Changes(fs, fs', ino) && Extended(fs, grown, ino)
    && fs'.super == fs.super && fs'.g == fs.g && fs'.inodeBits == fs.inodeBits
    && List(fs', ino) == List(grown, ino)
    && GetInode(fs', ino).size == Max(GetInode(fs, ino).size, offset + |bytes|)
    && Held(fs.data, List(grown, ino)) && Within(List(grown, ino), offset, |bytes|)
    && fs'.data == Patch(fs.data, List(grown, ino), offset, bytes)
  }

  lemma WrittenCovered(fs: Fs, grown: Fs, ino: nat, offset: nat, n: nat, i': Inode)
    requires Inv(fs) && LiveFile(fs, ino) && IsInode(grown, ino) && |List(fs, ino)| <= |List(grown, ino)|
    requires Within(List(grown, ino), offset, n)
    requires i'.size == Max(GetInode(fs, ino).size, offset + n) && |Direct(i')| == |List(grown, ino)|
    ensures Covers(i')
  {
    FileFacts(fs, ino);
    hide Inv, Direct, Owned, DirectOnly, TreesOk, AllBlocks;
  }

  lemma DressedKeeps(fs: Fs, grown: Fs, ino: nat, offset: nat, bytes: seq<byte>, now: nat)
    requires Inv(fs) && LiveFile(fs, ino) && Extended(fs, grown, ino) && Word(offset + |bytes|) && Word(now)
    requires Held(fs.data, List(grown, ino)) && Within(List(grown, ino), offset, |bytes|)
    ensures WriteEffect(fs, grown, Dress(grown, ino, Max(GetInode(fs, ino).size, offset + |bytes|), now,
                                         Patch(fs.data, List(grown, ino), offset, bytes)), ino, offset, bytes)
  {
    var size := Max(GetInode(fs, ino).size, offset + |bytes|);
    var data := Patch(fs.data, List(grown, ino), offset, bytes);
    var fs' := Dress(grown, ino, size, now, data);
    hide Inv, Held, Within, Patch, Direct, Changes, Covers, InodeOk, OwnUpdate;
    SizeBound(fs, ino, offset + |bytes|);
    assert List(fs', ino) == List(grown, ino) by { DressedList(grown, ino, size, now, data); }
    WrittenCovered(fs, grown, ino, offset, |bytes|, GetInode(fs', ino));
    OwnUpdateKeeps(grown, fs', ino);
    ChangesTwice(fs, grown, fs', ino);
  }

  lemma DressedList(fs: Fs, ino: nat, size: nat, now: nat, data: map<nat, Block>)
    requires IsInode(fs, ino)
    ensures IsInode(Dress(fs, ino, size, now, data), ino)
    ensures List(Dress(fs, ino, size, now, data), ino) == List(fs, ino)
    ensures Dress(fs, ino, size, now, data).data == data
    ensures GetInode(Dress(fs, ino, size, now, data), ino).size == size
  {
    hide P.UpToZero;
  }

  lemma WriteKeeps(fs: Fs, ino: nat, offset: nat, bytes: seq<byte>, now: nat) returns (grown: Fs)
    requires Inv(fs) && LiveFile(fs, ino) && RoomFor(fs, ino, offset, |bytes|, now)
    ensures CanWrite(fs, ino, offset, |bytes|, now)
    ensures WriteEffect(fs, grown, WriteFile(fs, ino, offset, bytes, now), ino, offset, bytes)
  {
    hide Inv, Ok, CanGrow, Grow, Patch, Shortage, CanWrite, WriteFile, Dress, LiveFile, WriteEffect, Extended, Held,
         Within, Direct, IsInode;
    WriteNormal(fs, ino, offset, bytes, now);
    GrowKeeps(fs, ino, Shortage(fs, ino, offset + |bytes|));
    grown := Grown(fs, ino, offset + |bytes|);
    DressedKeeps(fs, grown, ino, offset, bytes, now);
  }

  /**
   * Every byte of the file after a write: what was stored, and for the rest what the blocks of the grown list held
   * before, also between the old end and the offset.
   */
  ghost predicate Bytewise(fs: Fs, fs': Fs, ino: nat, offset: nat, bytes: seq<byte>) {
    && Readable(fs', ino) && Held(fs.data, List(fs', ino)) && offset + |bytes| <= BLOCK_SIZE * |List(fs', ino)|
    && Content(fs', ino) == Splice(Flat(fs.data, List(fs', ino)), offset, bytes)[..GetInode(fs', ino).size]
  }

  lemma EffectBytes(fs: Fs, grown: Fs, fs': Fs, ino: nat, offset: nat, bytes: seq<byte>)
    requires WriteEffect(fs, grown, fs', ino, offset, bytes)
    ensures Bytewise(fs, fs', ino, offset, bytes)
  {
    hide Inv, Changes, Direct, L.Distinct, Flat, Patch, Covers, DirectOnly, TreesOk, AllBlocks;
    FileReadable(fs', ino);
    FileFacts(fs', ino);
    assert L.Distinct(List(fs', ino));
    PatchIsSplice(fs.data, List(grown, ino), offset, bytes);
  }

  lemma EffectContent(fs: Fs, grown: Fs, fs': Fs, ino: nat, offset: nat, bytes: seq<byte>)
    requires Inv(fs) && LiveFile(fs, ino) && WriteEffect(fs, grown, fs', ino, offset, bytes)
    ensures Readable(fs, ino) && Readable(fs', ino)
    ensures Overwritten(Content(fs, ino), Content(fs', ino), offset, bytes)
  {
    hide Inv, Changes, Direct, Flat, Patch, Overwritten;
    EffectBytes(fs, grown, fs', ino, offset, bytes);
    FileReadable(fs, ino);
    var blocks, size := List(grown, ino), GetInode(fs, ino).size;
    FlatPrefix(fs.data, List(fs, ino), blocks, size);
    SplicedContent(Flat(fs.data, blocks), size, offset, bytes);
  }

  /** A write that ends within 32 bits stores its bytes and nothing else. */
  lemma StraightWrite(fs: Fs, ino: nat, offset: nat, bytes: seq<byte>, now: nat)
    requires Inv(fs) && LiveFile(fs, ino) && RoomFor(fs, ino, offset, |bytes|, now)
    ensures CanWrite(fs, ino, offset, |bytes|, now)
    ensures var fs' := WriteFile(fs, ino, offset, bytes, now);
            && Inv(fs') && LiveFile(fs', ino) && Changes(fs, fs', ino) && fs'.super == fs.super && fs'.g == fs.g
            && Readable(fs, ino) && Readable(fs', ino) && List(fs, ino) <= List(fs', ino)
            && Overwritten(Content(fs, ino), Content(fs', ino), offset, bytes)
            && Bytewise(fs, fs', ino, offset, bytes)
  {
    hide Inv, Changes, Direct, LiveFile, CanWrite, WriteFile, Content, Overwritten, RoomFor, Readable, Bytewise;
    var grown := WriteKeeps(fs, ino, offset, bytes, now);
    EffectBytes(fs, grown, WriteFile(fs, ino, offset, bytes, now), ino, offset, bytes);
    EffectContent(fs, grown, WriteFile(fs, ino, offset, bytes, now), ino, offset, bytes);
  }

  lemma UndressCanGrow(fs: Fs, ino: nat, size: nat, now: nat, data: map<nat, Block>, count: nat)
    requires IsInode(fs, ino) && CanGrow(Dress(fs, ino, size, now, data), ino, count)
    ensures CanGrow(fs, ino, count)
  {
    hide P.UpToZero, FreeFrom;
    if count > 0 {
      FreeFromSame(Dress(fs, ino, size, now, data), fs, Hint(fs, ino));
    }
  }

  /** A live file can be written exactly when the numbers fit and there are enough free blocks. */
  lemma WritePossible(fs: Fs, ino: nat, offset: nat, n: nat, now: nat)
    requires Inv(fs) && LiveFile(fs, ino)
    ensures CanWrite(fs, ino, offset, n, now) <==> RoomToWrite(fs, ino, offset, n, now)
  {
    hide Inv, AllBlocks, Direct, DirectOnly, CanGrow, TreesOk, Dress, Sized, Ok, A.MetaMarked, Owned, Wrap, Held;
    InvOk(fs);
    FileFacts(fs, ino);
    var end := Wrap(offset + n);
    SizeBound(fs, ino, end);
    SizedIsDress(fs, ino, end, now);
    var size := Max(GetInode(fs, ino).size, end);
    if RoomToWrite(fs, ino, offset, n, now) {
      DressStores(fs, ino, offset, n, size, now);
    } else if CanWrite(fs, ino, offset, n, now) {
      DressedBlocks(fs, ino, size, now);
      UndressCanGrow(fs, ino, size, now, fs.data, Shortage(fs, ino, end));
    }
  }

  lemma PatchNothing(data: map<nat, Block>, blocks: seq<nat>, offset: nat)
    requires Held(data, blocks) && Within(blocks, offset, 0)
    ensures Patch(data, blocks, offset, []) == data
  {
    var b := blocks[offset / BLOCK_SIZE];
    assert Splice(data[b], offset % BLOCK_SIZE, []) == data[b];
  }

  /** A write whose end wraps around does what a write of no bytes at the wrapped end does. */
  lemma WriteWraps(fs: Fs, ino: nat, offset: nat, bytes: seq<byte>, now: nat)
    requires CanWrite(fs, ino, offset, |bytes|, now) && offset + |bytes| >= 0x1_0000_0000
    ensures CanWrite(fs, ino, Wrap(offset + |bytes|), 0, now)
    ensures WriteFile(fs, ino, offset, bytes, now) == WriteFile(fs, ino, Wrap(offset + |bytes|), [], now)
  {
    hide CanGrow, Grow, Held, Within, AllBlocks, Patch, Shortage, Sized, Ok, A.MetaMarked, TreesOk;
    var end := Wrap(offset + |bytes|);
    WrapsBeyond(offset, |bytes|);
    WrapsBeyond(end, 0);
    var sized := Sized(fs, ino, end, now);
    GrownHolds(sized, ino, end, 0);
    var grown := Grow(sized, ino, Shortage(sized, ino, end));
    PatchNothing(grown.data, AllBlocks(grown, ino), end);
  }

  /**
   * `write` to a live file stores the bytes at the offset, keeps all other old bytes, and extends the size to the end
   * of the write, exactly if that end fits 32 bits; otherwise it stores nothing, and the size is at least the wrapped
   * end.  In either case no other live inode, file or directory is affected.
   */
  lemma WriteRefines(fs: Fs, ino: nat, offset: nat, bytes: seq<byte>, now: nat)
    requires Inv(fs) && LiveFile(fs, ino) && RoomToWrite(fs, ino, offset, |bytes|, now)
    ensures CanWrite(fs, ino, offset, |bytes|, now)
    ensures var fs' := WriteFile(fs, ino, offset, bytes, now);
            && Inv(fs') && LiveFile(fs', ino) && Changes(fs, fs', ino) && fs'.super == fs.super && fs'.g == fs.g
            && Readable(fs, ino) && Readable(fs', ino) && List(fs, ino) <= List(fs', ino)
            && (Overwritten(Content(fs, ino), Content(fs', ino), offset, bytes) <==> offset + |bytes| < 0x1_0000_0000)
            && (offset + |bytes| >= 0x1_0000_0000 ==>
                  Overwritten(Content(fs, ino), Content(fs', ino), Wrap(offset + |bytes|), []))
            && (offset + |bytes| < 0x1_0000_0000 ==> Bytewise(fs, fs', ino, offset, bytes))
  {
    hide Inv, Changes, Direct, CanWrite, WriteFile, Readable, CanGrow, Shortage, Content, Bytewise;
    WritePossible(fs, ino, offset, |bytes|, now);
    WrapsBeyond(offset, |bytes|);
    var end := Wrap(offset + |bytes|);
    assert Bounded(end, 0) && Wrap(end + 0) == end && IsInode(fs, ino);
    hide LiveFile, Wrap;
    if offset + |bytes| < 0x1_0000_0000 {
      RoomFits(fs, ino, offset, |bytes|, now);
      hide RoomFor;
      StraightWrite(fs, ino, offset, bytes, now);
    } else {
      WriteWraps(fs, ino, offset, bytes, now);
      StraightWrite(fs, ino, end, [], now);
      SizeBound(fs, ino, end);
    }
  }

  // ----- one write or two -----

  lemma GrowLength(fs: Fs, ino: nat, count: nat)
    requires Ok(fs) && IsInode(fs, ino) && CanGrow(fs, ino, count)
    ensures |List(Grow(fs, ino, count), ino)| == |List(fs, ino)| + count
  {
    hide Ok, CanGrow, Grow, Direct, FreeFrom;
    if count > 0 {
      GrowMeans(fs, ino, count);
    } else {
      GrowNone(fs, ino);
    }
  }

  /** The inode that a write leaves, and how many blocks it lists. */
  ghost predicate Restamped(fs: Fs, fs': Fs, ino: nat, end: nat, now: nat) {
    && IsInode(fs, ino) && IsInode(fs', ino)
    && var i, i' := GetInode(fs, ino), GetInode(fs', ino);
       && i' == i.(size := if i.size < end then end else i.size, atime := now, mtime := now, block := i'.block)
       && |List(fs', ino)| == if |List(fs, ino)| <= end / 1024 then end / 1024 + 1 else |List(fs, ino)|
  }

  lemma DressRestamps(fs: Fs, grown: Fs, ino: nat, end: nat, now: nat, data: map<nat, Block>)
    requires IsInode(fs, ino) && IsInode(grown, ino)
    requires GetInode(grown, ino) == GetInode(fs, ino).(block := GetInode(grown, ino).block)
    requires |List(grown, ino)| == if |List(fs, ino)| <= end / 1024 then end / 1024 + 1 else |List(fs, ino)|
    ensures Restamped(fs, Dress(grown, ino, Max(GetInode(fs, ino).size, end), now, data), ino, end, now)
  {
    hide P.UpToZero;
  }

  lemma StraightRestamps(fs: Fs, ino: nat, offset: nat, bytes: seq<byte>, now: nat)
    requires Inv(fs) && LiveFile(fs, ino) && RoomFor(fs, ino, offset, |bytes|, now)
    ensures CanWrite(fs, ino, offset, |bytes|, now)
    ensures Restamped(fs, WriteFile(fs, ino, offset, bytes, now), ino, offset + |bytes|, now)
  {
    hide Inv, Ok, CanGrow, Grow, Patch, CanWrite, WriteFile, LiveFile, Held, Within, Direct, Dress, AllBlocks, Changes,
         Shortage, Restamped, P.UpToZero;
    InvOk(fs);
    var end := offset + |bytes|;
    WriteNormal(fs, ino, offset, bytes, now);
    GrowKeeps(fs, ino, Shortage(fs, ino, end));
    GrowLength(fs, ino, Shortage(fs, ino, end));
    ShortageOf(fs, ino, end);
    var grown := Grown(fs, ino, end);
    DressRestamps(fs, grown, ino, end, now, Patch(fs.data, List(grown, ino), offset, bytes));
  }

  /**
   * A write sets both times and the size, gives the file exactly the blocks it needs up to its end with one to spare
   * behind a full block, and changes nothing else of the inode.
   */
  lemma WriteRestamps(fs: Fs, ino: nat, offset: nat, bytes: seq<byte>, now: nat)
    requires Inv(fs) && LiveFile(fs, ino) && RoomToWrite(fs, ino, offset, |bytes|, now)
    ensures CanWrite(fs, ino, offset, |bytes|, now)
    ensures var end := (offset + |bytes|) % 0x1_0000_0000;
            Restamped(fs, WriteFile(fs, ino, offset, bytes, now), ino, end, now)
  {
    hide Inv, CanWrite, WriteFile, CanGrow, Shortage, Restamped;
    WritePossible(fs, ino, offset, |bytes|, now);
    WrapsBeyond(offset, |bytes|);
    var end := Wrap(offset + |bytes|);
    assert Bounded(end, 0) && Wrap(end + 0) == end;
    hide LiveFile;
    if offset + |bytes| < 0x1_0000_0000 {
      RoomFits(fs, ino, offset, |bytes|, now);
      hide RoomFor;
      StraightRestamps(fs, ino, offset, bytes, now);
    } else {
      WriteWraps(fs, ino, offset, bytes, now);
      StraightRestamps(fs, ino, end, [], now);
    }
  }

  lemma ShortageOf(fs: Fs, ino: nat, end: nat)
    requires Inv(fs) && LiveFile(fs, ino)
    ensures Shortage(fs, ino, end)
        == if end / BLOCK_SIZE < |List(fs, ino)| then 0 else end / BLOCK_SIZE - |List(fs, ino)| + 1
  {
    hide Inv, Direct, DirectOnly, Owned, TreesOk, AllBlocks;
    FileFacts(fs, ino);
  }

  /** The second of two adjacent writes grows by what the whole write is still short of. */
  lemma ShortageTwice(fs: Fs, fs1: Fs, ino: nat, end1: nat, end2: nat)
    requires Inv(fs) && LiveFile(fs, ino) && Inv(fs1) && LiveFile(fs1, ino) && end1 <= end2
    requires |List(fs1, ino)| == |List(fs, ino)| + Shortage(fs, ino, end1)
    ensures Shortage(fs, ino, end2) == Shortage(fs, ino, end1) + Shortage(fs1, ino, end2)
  {
    hide Inv, Direct, Shortage, LiveFile;
    ShortageOf(fs, ino, end1);
    ShortageOf(fs, ino, end2);
    ShortageOf(fs1, ino, end2);
  }

  lemma DressDress(fs: Fs, ino: nat, size1: nat, size2: nat, now: nat, data1: map<nat, Block>, data2: map<nat, Block>)
    requires IsInode(fs, ino)
    ensures IsInode(Dress(fs, ino, size1, now, data1), ino)
    ensures Dress(Dress(fs, ino, size1, now, data1), ino, size2, now, data2) == Dress(fs, ino, size2, now, data2)
  {
  }

  lemma PatchesMeet(data: map<nat, Block>, blocks: seq<nat>, more: seq<nat>, offset: nat, s: seq<byte>, t: seq<byte>)
    requires Held(data, more) && blocks <= more && Within(blocks, offset, |s|) && Within(more, offset, |s + t|)
    ensures Held(data, blocks) && Held(Patch(data, blocks, offset, s), more) && Within(more, offset + |s|, |t|)
    ensures Patch(Patch(data, blocks, offset, s), more, offset + |s|, t) == Patch(data, more, offset, s + t)
  {
    hide Patch;
    PatchPrefix(data, blocks, more, offset, s);
    PatchTwice(data, more, offset, s, t);
  }

  /** `fs1` is `fs` grown for a write up to `end`, with another size, times and data. */
  ghost predicate FirstStep(fs: Fs, fs1: Fs, ino: nat, end: nat, now: nat) {
    && Ok(fs) && IsInode(fs, ino) && CanGrow(fs, ino, Shortage(fs, ino, end)) && Inv(fs1) && LiveFile(fs1, ino)
    && Word(Max(GetInode(fs, ino).size, end)) && fs1.data.Keys == Grown(fs, ino, end).data.Keys
    && fs1 == Dress(Grown(fs, ino, end), ino, Max(GetInode(fs, ino).size, end), now, fs1.data)
  }

  lemma FirstStepReached(fs: Fs, ino: nat, offset: nat, s: seq<byte>, now: nat)
    requires Inv(fs) && LiveFile(fs, ino) && RoomFor(fs, ino, offset, |s|, now)
    ensures CanWrite(fs, ino, offset, |s|, now) && Reaches(fs, ino, offset, |s|)
    ensures WriteFile(fs, ino, offset, s, now) == Written(fs, ino, offset, s, now)
    ensures FirstStep(fs, WriteFile(fs, ino, offset, s, now), ino, offset + |s|, now)
  {
    hide Inv, Ok, CanGrow, Grow, Patch, Shortage, CanWrite, WriteFile, LiveFile, Held, Within, Direct, IsInode, Changes,
         DirectOnly;
    InvOk(fs);
    WriteNormal(fs, ino, offset, s, now);
    SizeBound(fs, ino, offset + |s|);
    var grown := WriteKeeps(fs, ino, offset, s, now);
    GrowKeeps(fs, ino, Shortage(fs, ino, offset + |s|));
  }

  lemma FirstLength(fs: Fs, fs1: Fs, ino: nat, end: nat, now: nat)
    requires FirstStep(fs, fs1, ino, end, now)
    ensures IsInode(fs, ino) && IsInode(fs1, ino) && |List(fs1, ino)| == |List(fs, ino)| + Shortage(fs, ino, end)
  {
    hide Inv, Ok, CanGrow, Grow, Shortage, LiveFile, Direct, Dress;
    var size := Max(GetInode(fs, ino).size, end);
    DressedList(Grown(fs, ino, end), ino, size, now, fs1.data);
    GrowLength(fs, ino, Shortage(fs, ino, end));
  }

  /** What the first write leaves for the second. */
  lemma SecondGrowth(fs: Fs, fs1: Fs, ino: nat, end1: nat, end2: nat, now: nat)
    requires Inv(fs) && LiveFile(fs, ino) && FirstStep(fs, fs1, ino, end1, now) && end1 <= end2 && Word(now)
    requires CanGrow(fs, ino, Shortage(fs, ino, end2))
    ensures Ok(fs) && Ok(fs1) && IsInode(fs, ino) && IsInode(fs1, ino) && CanGrow(fs1, ino, Shortage(fs1, ino, end2))
    ensures Grown(fs1, ino, end2) == Dress(Grown(fs, ino, end2), ino, Max(GetInode(fs, ino).size, end1), now, fs1.data)
  {
    hide Inv, Ok, CanGrow, Grow, Shortage, LiveFile, Direct, Dress;
    InvOk(fs1);
    FirstLength(fs, fs1, ino, end1, now);
    ShortageTwice(fs, fs1, ino, end1, end2);
    var c1, c2 := Shortage(fs, ino, end1), Shortage(fs1, ino, end2);
    var grown, size := Grown(fs, ino, end1), Max(GetInode(fs, ino).size, end1);
    GrowTwice(fs, ino, c1, c2);
    DressCanGrow(grown, ino, size, now, fs1.data, c2);
    DressGrow(grown, ino, size, now, fs1.data, c2);
  }

  lemma FirstRoom(fs: Fs, ino: nat, offset: nat, m: nat, n: nat, now: nat)
    requires Inv(fs) && LiveFile(fs, ino) && RoomFor(fs, ino, offset, m + n, now)
    ensures RoomFor(fs, ino, offset, m, now)
  {
    hide Inv, CanGrow, Direct, Shortage, LiveFile;
    ShortageOf(fs, ino, offset + m);
    ShortageOf(fs, ino, offset + m + n);
    var first := Shortage(fs, ino, offset + m);
    CanGrowLess(fs, ino, first, Shortage(fs, ino, offset + m + n) - first);
  }

  /** Two rewrites of a file, the second behind the first, or one of both. */
  lemma DressMeets(grown1: Fs, grown: Fs, ino: nat, size: nat, offset: nat, s: seq<byte>, t: seq<byte>, now: nat,
                   data: map<nat, Block>)
    requires IsInode(grown1, ino) && IsInode(grown, ino) && Held(data, List(grown, ino))
    requires List(grown1, ino) <= List(grown, ino) && Within(List(grown1, ino), offset, |s|)
    requires Within(List(grown, ino), offset, |s + t|)
    ensures Held(data, List(grown1, ino)) && Held(Patch(data, List(grown1, ino), offset, s), List(grown, ino))
    ensures Within(List(grown, ino), offset + |s|, |t|)
    ensures var size1, data1 := Max(size, offset + |s|), Patch(data, List(grown1, ino), offset, s);
            && IsInode(Dress(grown, ino, size1, now, data1), ino)
            && Dress(Dress(grown, ino, size1, now, data1), ino, Max(size1, offset + |s| + |t|), now,
                     Patch(data1, List(grown, ino), offset + |s|, t))
               == Dress(grown, ino, Max(size, offset + |s + t|), now, Patch(data, List(grown, ino), offset, s + t))
  {
    hide Direct, Held, Within, Patch, Dress;
    PatchesMeet(data, List(grown1, ino), List(grown, ino), offset, s, t);
    DressDress(grown, ino, Max(size, offset + |s|), Max(size, offset + |s + t|), now,
               Patch(data, List(grown1, ino), offset, s), Patch(data, List(grown, ino), offset, s + t));
  }

  /** The block lists of the two writes, and of the whole one. */
  lemma SecondLists(fs: Fs, fs1: Fs, ino: nat, end1: nat, end2: nat, now: nat)
    requires Inv(fs) && LiveFile(fs, ino) && FirstStep(fs, fs1, ino, end1, now) && end1 <= end2 && Word(now)
    requires CanGrow(fs, ino, Shortage(fs, ino, end2))
    ensures IsInode(fs, ino) && IsInode(fs1, ino) && Ok(fs1) && Ok(fs) && CanGrow(fs1, ino, Shortage(fs1, ino, end2))
    ensures List(fs1, ino) == List(Grown(fs, ino, end1), ino)
    ensures List(Grown(fs1, ino, end2), ino) == List(Grown(fs, ino, end2), ino)
    ensures List(Grown(fs, ino, end1), ino) <= List(Grown(fs, ino, end2), ino)
    ensures GetInode(fs1, ino).size == Max(GetInode(fs, ino).size, end1)
  {
    hide Inv, Ok, CanGrow, Grow, Shortage, LiveFile, Direct, Dress;
    SecondGrowth(fs, fs1, ino, end1, end2, now);
    var size1 := Max(GetInode(fs, ino).size, end1);
    GrowKeeps(fs1, ino, Shortage(fs1, ino, end2));
    DressedList(Grown(fs, ino, end1), ino, size1, now, fs1.data);
    DressedList(Grown(fs, ino, end2), ino, size1, now, fs1.data);
  }

  /** A write in terms of the grown file system, whatever that is. */
  ghost predicate WrittenFrom(fs: Fs, grown: Fs, fs': Fs, ino: nat, offset: nat, bytes: seq<byte>, now: nat) {
    && IsInode(fs, ino) && IsInode(grown, ino)
    && Held(fs.data, List(grown, ino)) && Within(List(grown, ino), offset, |bytes|)
    && fs' == Dress(grown, ino, Max(GetInode(fs, ino).size, offset + |bytes|), now,
                    Patch(fs.data, List(grown, ino), offset, bytes))
  }

  lemma WrittenMeans(fs: Fs, ino: nat, offset: nat, bytes: seq<byte>, now: nat)
    requires Reaches(fs, ino, offset, |bytes|)
    ensures Ok(fs) && IsInode(fs, ino) && CanGrow(fs, ino, Shortage(fs, ino, offset + |bytes|))
    ensures WrittenFrom(fs, Grown(fs, ino, offset + |bytes|), Written(fs, ino, offset, bytes, now), ino,
        offset, bytes, now)
  {
    hide Ok, CanGrow, Shortage, Direct, Patch, Dress, Grow;
  }

  /** The second write, on what the first one left, has the effect of the whole write. */
  lemma WritesMeet(fs: Fs, fs1: Fs, fs2: Fs, whole: Fs, grown1: Fs, grown2: Fs, grown: Fs, ino: nat, offset: nat,
                   s: seq<byte>, t: seq<byte>, now: nat)
    requires WrittenFrom(fs, grown1, fs1, ino, offset, s, now)
        && WrittenFrom(fs1, grown2, fs2, ino, offset + |s|, t, now)
    requires WrittenFrom(fs, grown, whole, ino, offset, s + t, now) && List(grown1, ino) <= List(grown, ino)
    requires grown2 == Dress(grown, ino, Max(GetInode(fs, ino).size, offset + |s|), now, fs1.data)
    ensures fs2 == whole
  {
    hide Direct, Patch, Dress, Within, Held;
    var size1 := Max(GetInode(fs, ino).size, offset + |s|);
    var data1 := Patch(fs.data, List(grown1, ino), offset, s);
    DressedList(grown1, ino, size1, now, data1);
    DressedList(grown, ino, size1, now, data1);
    DressMeets(grown1, grown, ino, GetInode(fs, ino).size, offset, s, t, now, fs.data);
  }

  /**
   * Two writes, one behind the other, leave exactly the file system that one write of the joined bytes leaves: same
   * bytes, size, block list and allocated blocks.
   */
  ghost predicate SplitAgrees(fs: Fs, ino: nat, offset: nat, s: seq<byte>, t: seq<byte>, now: nat) {
    && CanWrite(fs, ino, offset, |s|, now) && CanWrite(fs, ino, offset, |s + t|, now)
    && var fs1 := WriteFile(fs, ino, offset, s, now);
    && CanWrite(fs1, ino, offset + |s|, |t|, now)
    && WriteFile(fs1, ino, offset + |s|, t, now) == WriteFile(fs, ino, offset, s + t, now)
  }

  /** A write may be split anywhere, also on or beside a block boundary. */
  lemma WriteTwice(fs: Fs, ino: nat, offset: nat, s: seq<byte>, t: seq<byte>, now: nat)
    requires Inv(fs) && LiveFile(fs, ino) && RoomFor(fs, ino, offset, |s + t|, now)
    ensures SplitAgrees(fs, ino, offset, s, t, now)
  {
    hide Inv, Ok, CanGrow, Grow, Shortage, LiveFile, Direct, Held, Within, Patch, Dress, WriteFile, CanWrite, Written,
         Reaches, Grown, WrittenFrom;
    FirstRoom(fs, ino, offset, |s|, |t|, now);
    FirstStepReached(fs, ino, offset, s, now);
    var fs1 := WriteFile(fs, ino, offset, s, now);
    SecondGrowth(fs, fs1, ino, offset + |s|, offset + |s + t|, now);
    WriteNormal(fs, ino, offset, s + t, now);
    WriteNormal(fs1, ino, offset + |s|, t, now);
    var end1, end2 := offset + |s|, offset + |s + t|;
    SecondLists(fs, fs1, ino, end1, end2, now);
    WrittenMeans(fs, ino, offset, s, now);
    WrittenMeans(fs, ino, offset, s + t, now);
    WrittenMeans(fs1, ino, offset + |s|, t, now);
    WritesMeet(fs, fs1, WriteFile(fs1, ino, offset + |s|, t, now), WriteFile(fs, ino, offset, s + t, now),
               Grown(fs, ino, end1), Grown(fs1, ino, end2), Grown(fs, ino, end2), ino, offset, s, t, now);
  }

  // ----- read -----

  function Min(a: nat, b: nat): nat {
    if a < b then a else b
  }

  /** The inode as `read` rewrites it, also when there is nothing to read. */
  function Accessed(fs: Fs, ino: nat, now: nat): Fs
    requires IsInode(fs, ino)
  {
    PutInode(fs, ino, GetInode(fs, ino).(atime := now))
  }

  /** The number of bytes a read gets. */
  function ReadSize(size: nat, offset: nat, count: nat): nat {
    if offset >= size then 0 else Min(count, size - offset)
  }

  /** `read` adds offset and count as 64-bit numbers. */
  ghost predicate CanRead(fs: Fs, ino: nat, offset: nat, count: nat, now: nat) {
    && IsInode(fs, ino) && Word(now) && offset + count < 0x1_0000_0000_0000_0000
    && var fs' := Accessed(fs, ino, now);
    && TreesOk(fs', GetInode(fs', ino)) && Held(fs.data, AllBlocks(fs', ino))
    && (offset < GetInode(fs, ino).size ==>
          Within(AllBlocks(fs', ino), offset, ReadSize(GetInode(fs, ino).size, offset, count)))
  }

  function ReadFile(fs: Fs, ino: nat, offset: nat, count: nat, now: nat): seq<byte>
    requires CanRead(fs, ino, offset, count, now)
  {
    if offset >= GetInode(fs, ino).size then []
    else Slice(fs.data, AllBlocks(Accessed(fs, ino, now), ino), offset, ReadSize(GetInode(fs, ino).size, offset, count))
  }

  lemma AccessedKeeps(fs: Fs, ino: nat, now: nat)
    requires Inv(fs) && LiveFile(fs, ino) && Word(now)
    ensures var fs' := Accessed(fs, ino, now);
            && Inv(fs') && LiveFile(fs', ino) && Changes(fs, fs', ino) && List(fs', ino) == List(fs, ino)
            && fs'.data == fs.data && fs'.super == fs.super && fs'.g == fs.g && fs'.inodeBits == fs.inodeBits
            && GetInode(fs', ino).size == GetInode(fs, ino).size
  {
    FileFacts(fs, ino);
    InvOk(fs);
    var fs', i := Accessed(fs, ino, now), GetInode(fs, ino);
    assert InodeOk(i.(atime := now));
    hide Inv, Direct, InodeOk, Owned, DirectOnly, TreesOk, AllBlocks, Changes, A.MetaMarked;
    OwnUpdateKeeps(fs, fs', ino);
  }

  lemma ReadSlices(fs: Fs, ino: nat, blocks: seq<nat>, offset: nat, n: nat)
    requires Readable(fs, ino) && blocks == List(fs, ino) && Within(blocks, offset, n)
    requires offset + n <= GetInode(fs, ino).size
    ensures Slice(fs.data, blocks, offset, n) == Content(fs, ino)[offset..offset + n]
  {
    hide Direct, Flat, Slice, Within;
    SliceIsFlat(fs.data, blocks, offset, n);
    Subsequence(Flat(fs.data, blocks), GetInode(fs, ino).size, offset, offset + n);
  }

  lemma Subsequence(s: seq<byte>, n: nat, lo: nat, hi: nat)
    requires lo <= hi <= n <= |s|
    ensures s[..n][lo..hi] == s[lo..hi]
  {
  }

  lemma ReadWithin(fs: Fs, ino: nat, offset: nat, n: nat)
    requires Inv(fs) && LiveFile(fs, ino) && offset + n <= GetInode(fs, ino).size && offset < GetInode(fs, ino).size
    ensures Within(List(fs, ino), offset, n)
  {
    FileFacts(fs, ino);
    hide Inv, Direct, DirectOnly, Owned, TreesOk, AllBlocks;
  }

  /** `read` returns the bytes from the offset up to the count or the end of the file. */
  lemma ReadRefines(fs: Fs, ino: nat, offset: nat, count: nat, now: nat)
    requires Inv(fs) && LiveFile(fs, ino) && Word(now) && offset + count < 0x1_0000_0000_0000_0000
    ensures CanRead(fs, ino, offset, count, now) && Readable(fs, ino)
    ensures var c := Content(fs, ino);
            ReadFile(fs, ino, offset, count, now)
            == if offset >= |c| then [] else c[offset..Min(offset + count, |c|)]
  {
    hide Inv, Direct, DirectOnly, Owned, Changes, TreesOk, AllBlocks, Slice, LiveFile, Covers, Within;
    AccessedKeeps(fs, ino, now);
    FileReadable(fs, ino);
    FileFacts(Accessed(fs, ino, now), ino);
    var size := GetInode(fs, ino).size;
    if offset < size {
      ReadWithin(fs, ino, offset, ReadSize(size, offset, count));
      ReadSlices(fs, ino, List(fs, ino), offset, ReadSize(size, offset, count));
    }
  }

  /** Reading changes a time stamp only. */
  lemma ReadKeeps(fs: Fs, ino: nat, now: nat)
    requires Inv(fs) && LiveFile(fs, ino) && Word(now)
    ensures var fs' := Accessed(fs, ino, now);
            && Inv(fs') && LiveFile(fs', ino) && Changes(fs, fs', ino)
            && Readable(fs, ino) && Readable(fs', ino) && Content(fs', ino) == Content(fs, ino)
  {
    hide Inv, Direct, Changes, Flat, LiveFile;
    AccessedKeeps(fs, ino, now);
    FileReadable(fs, ino);
  }
}
