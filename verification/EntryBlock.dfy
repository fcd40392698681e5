/** The in-place reader and editor of a directory block. */
module EntryBlock {
  import opened Bytes
  import opened DirRecords
  import B = DirBlock

  /** Offset `at` is where the `k`-th record begins, or the end of the block after the last. */
  ghost predicate Begins(recs: seq<Rec>, k: nat, at: nat) {
    k <= |recs| && at == Total(recs[..k]) && at <= BLOCK_SIZE && (at == BLOCK_SIZE <==> k == |recs|)
  }

  /** What a scan reads at the offset of a record. */
  ghost predicate Reads(b: Block, at: nat, r: Rec) {
    && at + 8 <= BLOCK_SIZE && at + 9 + b[at + 6] <= BLOCK_SIZE && b[at + 6] == |r.name|
    && Le32(b, at) == r.inode && Le16(b, at + 4) == r.recLen
    && B.NameAt(b, at + 8, b[at + 6]) == r.name && r.recLen >= Need(|r.name|)
  }

  lemma ScanStart(b: Block)
    requires B.Chain(b, 0)
    ensures Begins(B.Parse(b, 0), 0, 0)
  {
    B.TilesOfAll(b);
  }

  lemma ScanStep(b: Block, k: nat, at: nat)
    requires B.Chain(b, 0) && Begins(B.Parse(b, 0), k, at) && k < |B.Parse(b, 0)|
    ensures Reads(b, at, B.Parse(b, 0)[k])
    ensures Begins(B.Parse(b, 0), k + 1, at + B.Parse(b, 0)[k].recLen)
  {
    hide B.Chain, B.Parse, B.Tiles, Total;
    B.Around(b, k);
    B.TilesOfAll(b);
    var recs := B.Parse(b, 0);
    if k + 1 == |recs| {
      assert recs[..k + 1] == recs;
    } else {
      B.Around(b, k + 1);
    }
  }

  /** Writing the fields of a record one by one, in the order of `add_entry`, writes its whole image. */
  lemma FieldWrites(b: Block, at: nat, t: Rec)
    requires |t.name| <= NAME_LEN && at + 9 + |t.name| <= BLOCK_SIZE
    ensures Splice(Splice(Splice(Splice(Splice(b, at, Put32(t.inode)), at + 7, [t.fileType]), at + 6, [Byte(|t.name|)]),
                          at + 8, t.name + [0]), at + 4, Put16(t.recLen))
            == Splice(b, at, B.RecBytes(t))
  {
    var n := |t.name|;
    var s := B.RecBytes(t);
    assert s[0..4] == Put32(t.inode) && s[4..6] == Put16(t.recLen) && s[6..8] == [Byte(n), t.fileType];
    assert s[8..9 + n] == t.name + [0];
    hide Put32, Put16;
    var c := Splice(Splice(Splice(Splice(Splice(b, at, Put32(t.inode)), at + 7, [t.fileType]), at + 6, [Byte(n)]),
                           at + 8, t.name + [0]), at + 4, Put16(t.recLen));
    forall k | 0 <= k < BLOCK_SIZE ensures c[k] == Splice(b, at, s)[k] {
    }
  }

  /** The same in the order of `init_entry_block`. */
  lemma InitWrites(b: Block, at: nat, t: Rec)
    requires |t.name| <= NAME_LEN && at + 9 + |t.name| <= BLOCK_SIZE
    ensures Splice(Splice(Splice(Splice(Splice(b, at, Put32(t.inode)), at + 6, [Byte(|t.name|)]), at + 7, [t.fileType]),
                          at + 8, t.name + [0]), at + 4, Put16(t.recLen))
            == Splice(b, at, B.RecBytes(t))
  {
    hide B.RecBytes, Put32, Put16;
    FieldWrites(b, at, t);
    var c := Splice(b, at, Put32(t.inode));
    assert Splice(Splice(c, at + 6, [Byte(|t.name|)]), at + 7, [t.fileType])
        == Splice(Splice(c, at + 7, [t.fileType]), at + 6, [Byte(|t.name|)]);
  }

  /** Writes one record of a new directory block. */
  method WriteRecord(block: array<byte>, at: nat, t: Rec)
    requires block.Length == BLOCK_SIZE && |t.name| <= NAME_LEN && at + 9 + |t.name| <= BLOCK_SIZE
    modifies block
    ensures block[..] == Splice(old(block[..]), at, B.RecBytes(t))
  {
    InitWrites(block[..], at, t);
    hide Splice, Put16, Put32, B.RecBytes;
    Copy(block, at, Put32(t.inode));
    Copy(block, at + 6, [Byte(|t.name|)]);
    Copy(block, at + 7, [t.fileType]);
    Copy(block, at + 8, t.name + [0]);
    Copy(block, at + 4, Put16(t.recLen));
  }

  /** A new directory block: "." and "..", the latter up to the end of the block. */
  method InitEntryBlock(block: array<byte>, inode: nat, father: nat)
    requires block.Length == BLOCK_SIZE
    modifies block
    ensures block[..] == B.InitBlock(inode, father)
  {
    Copy(block, 0, ZeroBlock());
    assert block[..] == ZeroBlock();
    hide Splice, B.RecBytes;
    WriteRecord(block, 0, Rec(inode, 12, FT_DIR, DOT));
    WriteRecord(block, 12, Rec(father, BLOCK_SIZE - 12, FT_DIR, DOT_DOT));
  }

  class EntryBlock {
    const block: array<byte>
    var now: nat
    ghost var left: seq<Rec>

    ghost predicate Valid()
      reads this, block
    {
      block.Length == BLOCK_SIZE && now <= BLOCK_SIZE && B.Tiles(block[..], now, left, BLOCK_SIZE)
    }

    constructor (block: array<byte>)
      requires block.Length == BLOCK_SIZE && B.Chain(block[..], 0)
      ensures Valid() && this.block == block && left == B.Parse(block[..], 0)
    {
      this.block, now := block, 0;
      left := B.Parse(block[..], 0);
      B.ParseTiles(block[..], 0);
    }

    /** Reads the next record and steps over it; `None` exactly at the end of the block. */
    method NextEntry() returns (r: Option<Entry>)
      requires Valid()
      modifies this
      ensures Valid()
      ensures r == if old(left) == [] then None else Some(ToEntry(old(left)[0]))
      ensures left == if old(left) == [] then [] else old(left)[1..]
    {
      B.TilesTotal(block[..], now, left, BLOCK_SIZE);
      if now == BLOCK_SIZE {
        return None;
      }
      assert left != [];
      var bytes := block[..];
      assert B.NameAt(bytes, now + 8, bytes[now + 6]) == left[0].name;
      r := Some(Entry(Le32(bytes, now), bytes[now + 7], B.NameAt(bytes, now + 8, bytes[now + 6])));
      now := now + Le16(bytes, now + 4);
      B.TilesTotal(block[..], now, left[1..], BLOCK_SIZE);
      left := left[1..];
    }

    /** Cuts the record at `at` down to `size` and writes a new one behind it. */
    method WriteSplit(at: nat, size: nat, e: Entry, remain: nat)
      requires block.Length == BLOCK_SIZE && EntryOk(e)
      requires at + 6 <= BLOCK_SIZE && at + size + 9 + |e.name| <= BLOCK_SIZE
      modifies block
      ensures block[..] == Splice(Splice(old(block[..]), at + 4, Put16(size)), at + size,
                                  B.RecBytes(Rec(e.inode, remain, e.fileType, e.name)))
    {
      Copy(block, at + 4, Put16(size));
      FieldWrites(block[..], at + size, Rec(e.inode, remain, e.fileType, e.name));
      hide Splice, Put16, Put32, B.RecBytes;
      Copy(block, at + size, Put32(e.inode));
      Copy(block, at + size + 7, [e.fileType]);
      Copy(block, at + size + 6, [Byte(|e.name|)]);
      Copy(block, at + size + 8, e.name + [0]);
      Copy(block, at + size + 4, Put16(remain));
    }

    method AddEntry(e: Entry) returns (ok: bool)
      requires block.Length == BLOCK_SIZE && B.Chain(block[..], 0) && EntryOk(e)
      modifies block
      ensures (ok, block[..]) == B.AddEntry(old(block[..]), e)
    {
      hide B.Chain, B.Parse, Begins, B.SplitRecord, Need;
      var bytes: Block := block[..];
      var entrySize := Need(|e.name|);
      var at: nat, k: nat := 0, 0;
      ghost var recs := B.Parse(bytes, 0);
      ScanStart(bytes);
      while at != BLOCK_SIZE
        invariant at <= BLOCK_SIZE && k <= |recs| && (at == BLOCK_SIZE <==> k == |recs|) && Begins(recs, k, at)
        invariant forall j :: 0 <= j < k ==> Slack(recs[j]) < entrySize
        invariant block[..] == bytes
        decreases BLOCK_SIZE - at
      {
        ScanStep(bytes, k, at);
        BeginsWithin(recs, k + 1, at + recs[k].recLen);
        var size := Need(bytes[at + 6]);
        assert Le16(bytes, at + 4) >= size;
        var remain := Le16(bytes, at + 4) - size;
        if remain >= entrySize {
          assert k == FirstFit(recs, entrySize);
          SplitMeans(bytes, k, at, e);
          WriteSplit(at, size, e, remain);
          return true;
        }
        at := at + Le16(bytes, at + 4);
        k := k + 1;
      }
      ok := false;
    }

    /** Extends the record at `pre` over the one at `at` and clears that one's length and inode. */
    method WriteMerge(pre: nat, at: nat)
      requires block.Length == BLOCK_SIZE && pre + 6 <= BLOCK_SIZE && at + 6 <= BLOCK_SIZE
      modifies block
      ensures block[..] == Splice(Splice(old(block[..]), pre + 4,
                                         Put16(Le16(old(block[..]), pre + 4) + Le16(old(block[..]), at + 4))),
                                  at, Put32(0) + Put16(0))
    {
      hide Put16, Put32, Splice;
      var bytes := block[..];
      Copy(block, pre + 4, Put16(Le16(bytes, pre + 4) + Le16(bytes, at + 4)));
      ghost var merged := block[..];
      Copy(block, at + 4, Put16(0));
      Copy(block, at, Put32(0));
    }

    /** Merges the record of `inode` into the one before it. */
    method Free(inode: nat) returns (ok: bool)
      requires block.Length == BLOCK_SIZE && B.Chain(block[..], 0)
      requires var recs := B.Parse(block[..], 0);
               var k := FindInode(recs, inode);
               k != 0 && (k < |recs| ==> !IsDot(recs[k].name))
      modifies block
      ensures (ok, block[..]) == B.FreeEntry(old(block[..]), inode)
    {
      hide B.Chain, B.Parse, Begins, B.MergeRecord;
      var bytes: Block := block[..];
      var pre: nat, at: nat, k: nat := 0, 0, 0;
      ghost var recs := B.Parse(bytes, 0);
      ScanStart(bytes);
      while at != BLOCK_SIZE
        invariant at <= BLOCK_SIZE && k <= |recs| && (at == BLOCK_SIZE <==> k == |recs|) && Begins(recs, k, at)
        invariant k > 0 ==> Begins(recs, k - 1, pre)
        invariant forall j :: 0 <= j < k ==> recs[j].inode != inode
        invariant block[..] == bytes
        decreases BLOCK_SIZE - at
      {
        ScanStep(bytes, k, at);
        BeginsWithin(recs, k + 1, at + recs[k].recLen);
        if Le32(bytes, at) == inode {
          assert k == FindInode(recs, inode);
          assert B.NameAt(bytes, at + 8, bytes[at + 6]) != DOT && B.NameAt(bytes, at + 8, bytes[at + 6]) != DOT_DOT;
          MergeFound(bytes, inode, k, pre, at);
          WriteMerge(pre, at);
          return true;
        }
        pre := at;
        at := at + Le16(bytes, at + 4);
        k := k + 1;
      }
      ok := false;
    }
  }

  lemma MergeFound(b: Block, inode: nat, k: nat, p: nat, o: nat)
    requires B.Chain(b, 0) && 1 <= k < |B.Parse(b, 0)| && k == FindInode(B.Parse(b, 0), inode)
    requires Begins(B.Parse(b, 0), k - 1, p) && Begins(B.Parse(b, 0), k, o)
    ensures p + 6 <= BLOCK_SIZE && o + 6 <= BLOCK_SIZE
    ensures B.FreeEntry(b, inode)
            == (true, Splice(Splice(b, p + 4, Put16(Le16(b, p + 4) + Le16(b, o + 4))), o, Put32(0) + Put16(0)))
  {
    hide B.Chain, B.Parse, Splice, Put16, Put32, Begins, B.MergeRecord, Le16;
    ScanStep(b, k - 1, p);
    ScanStep(b, k, o);
    MergeMeans(b, k, p, o);
  }

  lemma BeginsWithin(recs: seq<Rec>, k: nat, at: nat)
    requires Begins(recs, k, at)
    ensures at <= BLOCK_SIZE && k <= |recs| && (at == BLOCK_SIZE <==> k == |recs|)
  {
  }

  lemma SplitMeans(b: Block, k: nat, at: nat, e: Entry)
    requires B.Chain(b, 0) && EntryOk(e) && Begins(B.Parse(b, 0), k, at) && k < |B.Parse(b, 0)|
    requires Slack(B.Parse(b, 0)[k]) >= Need(|e.name|)
    ensures var r := B.Parse(b, 0)[k];
            && at + r.recLen <= BLOCK_SIZE
            && B.SplitRecord(b, k, e)
               == Splice(Splice(b, at + 4, Put16(Need(|r.name|))), at + Need(|r.name|),
                         B.RecBytes(Rec(e.inode, Slack(r), e.fileType, e.name)))
  {
    hide B.Chain, B.Parse, Splice, Total, Put16, B.RecBytes, Need;
    B.RecordInTiles(b, k);
  }

  lemma MergeMeans(b: Block, k: nat, p: nat, o: nat)
    requires B.Chain(b, 0) && 1 <= k < |B.Parse(b, 0)|
    requires Begins(B.Parse(b, 0), k - 1, p) && Begins(B.Parse(b, 0), k, o)
    ensures p + 6 <= BLOCK_SIZE && o + 6 <= BLOCK_SIZE
    ensures B.MergeRecord(b, k)
            == Splice(Splice(b, p + 4, Put16(B.Parse(b, 0)[k - 1].recLen + B.Parse(b, 0)[k].recLen)), o,
                Put32(0) + Put16(0))
  {
    hide B.Chain, B.Parse, Splice, Total, Put16, Put32;
    B.RecordInTiles(b, k - 1);
    B.RecordInTiles(b, k);
  }
}
