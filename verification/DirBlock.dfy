/** The bytes of a directory block, and the reader and editor that walks over them. */
module DirBlock {
  import opened Bytes
  import opened DirRecords

  /** The `n` bytes from `o` on. */
  function NameAt(b: Block, o: nat, n: nat): seq<byte>
    requires o + n <= BLOCK_SIZE
  {
    seq(n, k requires 0 <= k < n => b[o + k])
  }

  /** Record `r` lies at offset `o`: header, name, NUL, and room up to `o + r.recLen`. */
  predicate RecordAt(b: Block, o: nat, r: Rec) {
    && RecOk(r) && o + r.recLen <= BLOCK_SIZE
    && Le32(b, o) == r.inode
    && Le16(b, o + 4) == r.recLen
    && b[o + 6] == |r.name|
    && b[o + 7] == r.fileType
    && (forall k :: 0 <= k < |r.name| ==> b[o + 8 + k] == r.name[k])
    && b[o + 8 + |r.name|] == 0
  }

  /** The records `recs` lie end to end from offset `o` to offset `e`. */
  predicate Tiles(b: Block, o: nat, recs: seq<Rec>, e: nat)
    decreases |recs|
  {
    if recs == [] then o == e
    else RecordAt(b, o, recs[0]) && Tiles(b, o + recs[0].recLen, recs[1..], e)
  }

  // ----- parsing -----

  function RecordOf(b: Block, o: nat): Rec
    requires o + 8 <= BLOCK_SIZE && o + 8 + b[o + 6] <= BLOCK_SIZE
  {
    Rec(Le32(b, o), Le16(b, o + 4), b[o + 7], NameAt(b, o + 8, b[o + 6]))
  }

  /** From offset `o` on the block is a chain of well-formed records that ends exactly at its end. */
  predicate Chain(b: Block, o: nat)
    decreases BLOCK_SIZE - o, b
  {
    o == BLOCK_SIZE
    || (o + 8 <= BLOCK_SIZE && o + 8 + b[o + 6] <= BLOCK_SIZE
        && RecordAt(b, o, RecordOf(b, o)) && Chain(b, o + RecordOf(b, o).recLen))
  }

  function Parse(b: Block, o: nat): seq<Rec>
    requires Chain(b, o)
    decreases BLOCK_SIZE - o, b
  {
    if o == BLOCK_SIZE then [] else [RecordOf(b, o)] + Parse(b, o + RecordOf(b, o).recLen)
  }

  lemma {:induction false} ParseTiles(b: Block, o: nat)
    requires Chain(b, o)
    ensures Tiles(b, o, Parse(b, o), BLOCK_SIZE)
    decreases BLOCK_SIZE - o
  {
    if o != BLOCK_SIZE {
      ParseTiles(b, o + RecordOf(b, o).recLen);
      assert Parse(b, o)[1..] == Parse(b, o + RecordOf(b, o).recLen);
    }
  }

  lemma {:induction false} TilesParse(b: Block, o: nat, recs: seq<Rec>)
    requires Tiles(b, o, recs, BLOCK_SIZE)
    ensures Chain(b, o) && Parse(b, o) == recs
    decreases |recs|
  {
    if recs != [] {
      assert RecordOf(b, o) == recs[0];
      TilesParse(b, o + recs[0].recLen, recs[1..]);
    }
  }

  lemma {:induction false} TilesTotal(b: Block, o: nat, recs: seq<Rec>, e: nat)
    requires Tiles(b, o, recs, e)
    ensures o + Total(recs) == e && RecsOk(recs) && (recs != [] ==> e <= BLOCK_SIZE)
    decreases |recs|
  {
    if recs != [] {
      TilesTotal(b, o + recs[0].recLen, recs[1..], e);
    }
  }

  lemma {:induction false} TilesConcat(b: Block, o: nat, s: seq<Rec>, m: nat, t: seq<Rec>, e: nat)
    requires Tiles(b, o, s, m) && Tiles(b, m, t, e)
    ensures Tiles(b, o, s + t, e)
    decreases |s|
  {
    hide RecordAt;
    if s == [] {
      assert s + t == t;
    } else {
      TilesConcat(b, o + s[0].recLen, s[1..], m, t, e);
      assert (s + t)[1..] == s[1..] + t;
    }
  }

  lemma {:induction false} TilesSplit(b: Block, o: nat, s: seq<Rec>, t: seq<Rec>, e: nat)
    requires Tiles(b, o, s + t, e)
    ensures Tiles(b, o, s, o + Total(s)) && Tiles(b, o + Total(s), t, e)
    decreases |s|
  {
    hide RecordAt;
    if s == [] {
      assert s + t == t;
    } else {
      assert (s + t)[1..] == s[1..] + t;
      TilesSplit(b, o + s[0].recLen, s[1..], t, e);
    }
  }

  // ----- frames -----

  predicate Same(b: Block, c: Block, lo: nat, hi: nat) {
    forall k :: lo <= k < hi && k < BLOCK_SIZE ==> b[k] == c[k]
  }

  /** A record is unaffected by changes outside its header and name. */
  lemma RecordFrame(b: Block, c: Block, o: nat, r: Rec)
    requires RecordAt(b, o, r) && Same(b, c, o, o + Need(|r.name|))
    ensures RecordAt(c, o, r)
  {
  }

  lemma {:induction false} TilesFrame(b: Block, c: Block, o: nat, recs: seq<Rec>, e: nat)
    requires Tiles(b, o, recs, e) && Same(b, c, o, e)
    ensures Tiles(c, o, recs, e)
    decreases |recs|
  {
    if recs != [] {
      TilesTotal(b, o + recs[0].recLen, recs[1..], e);
      RecordFrame(b, c, o, recs[0]);
      TilesFrame(b, c, o + recs[0].recLen, recs[1..], e);
    }
  }

  // ----- writing records -----

  /** The image of a record's header, name and NUL. */
  function RecBytes(r: Rec): (s: seq<byte>)
    requires |r.name| <= NAME_LEN
    ensures |s| == 9 + |r.name|
  {
    Put32(r.inode) + Put16(r.recLen) + [Byte(|r.name|), r.fileType] + r.name + [0]
  }

  lemma RecBytesAt(r: Rec)
    requires RecOk(r)
    ensures var s := RecBytes(r);
            && s[0] == Put32(r.inode)[0] && s[1] == Put32(r.inode)[1]
            && s[2] == Put32(r.inode)[2] && s[3] == Put32(r.inode)[3]
            && s[4] == Put16(r.recLen)[0] && s[5] == Put16(r.recLen)[1]
            && s[6] == |r.name| && s[7] == r.fileType && s[8 + |r.name|] == 0
            && forall k :: 0 <= k < |r.name| ==> s[8 + k] == r.name[k]
  {
  }

  lemma HalfInBytes(c: seq<byte>, p: nat, v: nat)
    requires p + 2 <= |c| && v < 0x1_0000
    requires c[p] == Put16(v)[0] && c[p + 1] == Put16(v)[1]
    ensures Le16(c, p) == v
  {
    Digits(v);
  }

  lemma NameFromBytes(c: Block, o: nat, r: Rec)
    requires RecOk(r) && o + r.recLen <= BLOCK_SIZE
    requires forall k :: 0 <= k < 9 + |r.name| ==> c[o + k] == RecBytes(r)[k]
    ensures forall k :: 0 <= k < |r.name| ==> c[o + 8 + k] == r.name[k]
  {
    hide RecBytes;
    RecBytesAt(r);
    forall k | 0 <= k < |r.name| ensures c[o + 8 + k] == r.name[k] {
      assert c[o + (8 + k)] == RecBytes(r)[8 + k];
    }
  }

  lemma RecordFromBytes(c: Block, o: nat, r: Rec)
    requires RecOk(r) && o + r.recLen <= BLOCK_SIZE
    requires forall k :: 0 <= k < 9 + |r.name| ==> c[o + k] == RecBytes(r)[k]
    ensures RecordAt(c, o, r)
  {
    hide RecBytes, Put32, Put16, Le32, Le16;
    RecBytesAt(r);
    NameFromBytes(c, o, r);
    var n := |r.name|;
    assert c[o + 0] == RecBytes(r)[0] && c[o + 8 + n] == c[o + (8 + n)];
    WordInBytes(c, o, r.inode);
    HalfInBytes(c, o + 4, r.recLen);
  }

  lemma PutRecord(b: Block, o: nat, r: Rec)
    requires RecOk(r) && o + r.recLen <= BLOCK_SIZE
    ensures RecordAt(Splice(b, o, RecBytes(r)), o, r)
  {
    hide RecBytes;
    forall k | 0 <= k < 9 + |r.name| ensures Splice(b, o, RecBytes(r))[o + k] == RecBytes(r)[k] {
      SpliceAt(b, o, RecBytes(r), k);
    }
    RecordFromBytes(Splice(b, o, RecBytes(r)), o, r);
  }

  /** Changing `rec_len` alone. */
  lemma PutRecLen(b: Block, o: nat, r: Rec, recLen: nat)
    requires RecordAt(b, o, r) && Need(|r.name|) <= recLen && o + recLen <= BLOCK_SIZE
    ensures RecordAt(Splice(b, o + 4, Put16(recLen)), o, r.(recLen := recLen))
  {
    var c := Splice(b, o + 4, Put16(recLen));
    Put16Le16(b, o + 4, recLen);
  }

  // ----- the three operations on bytes -----

  function InitBlock(inode: nat, father: nat): (b: Block) {
    Splice(Splice(ZeroBlock(), 0, RecBytes(InitRecs(inode, father)[0])), 12, RecBytes(InitRecs(inode, father)[1]))
  }

  lemma OneTile(b: Block, o: nat, r: Rec)
    requires RecordAt(b, o, r)
    ensures Tiles(b, o, [r], o + r.recLen)
  {
    assert [r][1..] == [];
  }

  lemma TwoTiles(b: Block, o: nat, r: Rec, t: Rec)
    requires RecordAt(b, o, r) && RecordAt(b, o + r.recLen, t)
    ensures Tiles(b, o, [r, t], o + r.recLen + t.recLen)
  {
    hide RecordAt;
    OneTile(b, o + r.recLen, t);
    assert [r, t][1..] == [t];
  }

  lemma InitTiles(b: Block, r: Rec, t: Rec)
    requires RecOk(r) && RecOk(t) && r.recLen + t.recLen == BLOCK_SIZE
    ensures Tiles(Splice(Splice(b, 0, RecBytes(r)), r.recLen, RecBytes(t)), 0, [r, t], BLOCK_SIZE)
  {
    var b1 := Splice(b, 0, RecBytes(r));
    var c := Splice(b1, r.recLen, RecBytes(t));
    PutRecord(b, 0, r);
    PutRecord(b1, r.recLen, t);
    hide RecordAt, Splice, RecBytes, Need;
    RecordFrame(b1, c, 0, r);
    TwoTiles(c, 0, r, t);
  }

  lemma InitBlockRecords(inode: nat, father: nat)
    requires inode < 0x1_0000_0000 && father < 0x1_0000_0000
    ensures Chain(InitBlock(inode, father), 0) && Parse(InitBlock(inode, father), 0) == InitRecs(inode, father)
  {
    var recs := InitRecs(inode, father);
    InitShaped(inode, father);
    assert RecOk(recs[0]) && RecOk(recs[1]);
    hide RecOk, Splice, RecBytes, Tiles, Shaped, Chain, Parse;
    InitTiles(ZeroBlock(), recs[0], recs[1]);
    TilesParse(InitBlock(inode, father), 0, recs);
  }

  /** The record at `o`, whose content is `r`, is cut to its need, and `e` gets the rest. */
  function SplitAt(b: Block, o: nat, r: Rec, e: Entry): Block
    requires RecOk(r) && EntryOk(e) && o + r.recLen <= BLOCK_SIZE && Slack(r) >= Need(|e.name|)
  {
    Splice(Splice(b, o + 4, Put16(Need(|r.name|))), o + Need(|r.name|),
           RecBytes(Rec(e.inode, Slack(r), e.fileType, e.name)))
  }

  /** `add_entry` on a well-formed block. */
  function AddEntry(b: Block, e: Entry): (bool, Block)
    requires Chain(b, 0) && EntryOk(e)
  {
    var k := FirstFit(Parse(b, 0), Need(|e.name|));
    if k == |Parse(b, 0)| then (false, b) else (true, SplitRecord(b, k, e))
  }

  /** Splits the `k`-th record. */
  function SplitRecord(b: Block, k: nat, e: Entry): Block
    requires Chain(b, 0) && EntryOk(e) && k < |Parse(b, 0)| && Slack(Parse(b, 0)[k]) >= Need(|e.name|)
  {
    RecordInTiles(b, k);
    SplitAt(b, Total(Parse(b, 0)[..k]), Parse(b, 0)[k], e)
  }

  lemma RecordInTiles(b: Block, k: nat)
    requires Chain(b, 0) && k < |Parse(b, 0)|
    ensures RecordAt(b, Total(Parse(b, 0)[..k]), Parse(b, 0)[k])
  {
    Around(b, k);
  }

  lemma SplitBytes(b: Block, o: nat, r: Rec, e: Entry)
    requires RecordAt(b, o, r) && EntryOk(e) && Slack(r) >= Need(|e.name|)
    ensures var c := SplitAt(b, o, r, e);
            && RecordAt(c, o, Trimmed(r))
            && RecordAt(c, o + Need(|r.name|), Rec(e.inode, Slack(r), e.fileType, e.name))
            && Same(b, c, 0, o) && Same(b, c, o + r.recLen, BLOCK_SIZE)
  {
    var t, at := Rec(e.inode, Slack(r), e.fileType, e.name), o + Need(|r.name|);
    var b1 := Splice(b, o + 4, Put16(Need(|r.name|)));
    var c := SplitAt(b, o, r, e);
    PutRecLen(b, o, r, Need(|r.name|));
    RecordFrame(b1, c, o, Trimmed(r));
    PutRecord(b1, at, t);
    hide RecordAt, RecBytes;
  }

  /** Records before and after a changed stretch stay where they are. */
  lemma Reassemble(b: Block, c: Block, before: seq<Rec>, o: nat, mid: seq<Rec>, m: nat, after: seq<Rec>)
    requires Tiles(b, 0, before, o) && Tiles(c, o, mid, m) && Tiles(b, m, after, BLOCK_SIZE)
    requires Same(b, c, 0, o) && Same(b, c, m, BLOCK_SIZE)
    ensures Tiles(c, 0, before + mid + after, BLOCK_SIZE)
  {
    hide Tiles, Same;
    TilesFrame(b, c, 0, before, o);
    TilesFrame(b, c, m, after, BLOCK_SIZE);
    TilesConcat(c, 0, before, o, mid, m);
    TilesConcat(c, 0, before + mid, m, after, BLOCK_SIZE);
  }

  /** Two records in place of a stretch of the same length. */
  lemma ReassembleTwo(b: Block, c: Block, before: seq<Rec>, o: nat, r: Rec, t: Rec, m: nat, after: seq<Rec>)
    requires Tiles(b, 0, before, o) && RecordAt(c, o, r) && RecordAt(c, o + r.recLen, t)
    requires m == o + r.recLen + t.recLen && Tiles(b, m, after, BLOCK_SIZE)
    requires Same(b, c, 0, o) && Same(b, c, m, BLOCK_SIZE)
    ensures Tiles(c, 0, before + [r, t] + after, BLOCK_SIZE)
  {
    hide RecordAt, Tiles, Same;
    TwoTiles(c, o, r, t);
    Reassemble(b, c, before, o, [r, t], m, after);
  }

  lemma SplitTiles(b: Block, before: seq<Rec>, o: nat, r: Rec, after: seq<Rec>, e: Entry)
    requires EntryOk(e) && Tiles(b, 0, before, o) && RecordAt(b, o, r) && Tiles(b, o + r.recLen, after, BLOCK_SIZE)
    requires Slack(r) >= Need(|e.name|)
    ensures Tiles(SplitAt(b, o, r, e), 0,
                  before + [Trimmed(r), Rec(e.inode, Slack(r), e.fileType, e.name)] + after, BLOCK_SIZE)
  {
    hide SplitAt, Tiles, Same, RecOk, EntryOk, Need;
    assert RecOk(r);
    hide RecordAt;
    SplitBytes(b, o, r, e);
    var c, t := SplitAt(b, o, r, e), Rec(e.inode, Slack(r), e.fileType, e.name);
    ReassembleTwo(b, c, before, o, Trimmed(r), t, o + r.recLen, after);
  }

  /** The pieces of a well-formed block around its `k`-th record. */
  lemma Around(b: Block, k: nat)
    requires Chain(b, 0) && k < |Parse(b, 0)|
    ensures var recs := Parse(b, 0);
            var o := Total(recs[..k]);
            && Tiles(b, 0, recs[..k], o) && RecordAt(b, o, recs[k])
            && Tiles(b, o + recs[k].recLen, recs[k + 1..], BLOCK_SIZE)
            && Total(recs[..k + 1]) == o + recs[k].recLen
  {
    hide RecordAt, Chain, Parse, Total, Tiles;
    var recs := Parse(b, 0);
    CutTiles(b, k);
    TotalNext(recs, k);
    var rest := recs[k..];
    assert rest[0] == recs[k] && rest[1..] == recs[k + 1..];
    HeadTile(b, Total(recs[..k]), rest, BLOCK_SIZE);
  }

  lemma CutTiles(b: Block, k: nat)
    requires Chain(b, 0) && k <= |Parse(b, 0)|
    ensures Tiles(b, 0, Parse(b, 0)[..k], Total(Parse(b, 0)[..k]))
    ensures Tiles(b, Total(Parse(b, 0)[..k]), Parse(b, 0)[k..], BLOCK_SIZE)
  {
    hide RecordAt, Chain, Parse, Total, Tiles;
    var recs := Parse(b, 0);
    ParseTiles(b, 0);
    assert recs == recs[..k] + recs[k..];
    TilesSplit(b, 0, recs[..k], recs[k..], BLOCK_SIZE);
  }

  lemma TilesOfAll(b: Block)
    requires Chain(b, 0)
    ensures Total(Parse(b, 0)) == BLOCK_SIZE
  {
    ParseTiles(b, 0);
    TilesTotal(b, 0, Parse(b, 0), BLOCK_SIZE);
  }

  lemma HeadTile(b: Block, o: nat, recs: seq<Rec>, e: nat)
    requires recs != [] && Tiles(b, o, recs, e)
    ensures RecordAt(b, o, recs[0]) && Tiles(b, o + recs[0].recLen, recs[1..], e)
  {
  }

  lemma TotalNext(recs: seq<Rec>, k: nat)
    requires k < |recs|
    ensures Total(recs[..k + 1]) == Total(recs[..k]) + recs[k].recLen
  {
    TotalConcat(recs[..k], [recs[k]]);
    assert recs[..k + 1] == recs[..k] + [recs[k]] && [recs[k]][1..] == [];
  }

  lemma AddEntryRecords(b: Block, e: Entry)
    requires Chain(b, 0) && EntryOk(e)
    ensures var (ok, c) := AddEntry(b, e);
            && Chain(c, 0)
            && ok == Insert(Parse(b, 0), e).Some?
            && Parse(c, 0) == if ok then Insert(Parse(b, 0), e).value else Parse(b, 0)
  {
    hide SplitAt, Tiles, Chain, Parse, Total, Le16, Le32, RecOk;
    var recs := Parse(b, 0);
    var k := FirstFit(recs, Need(|e.name|));
    if k < |recs| {
      var o := Total(recs[..k]);
      Around(b, k);
      assert RecOk(recs[k]) && o + recs[k].recLen <= BLOCK_SIZE;
      hide RecordAt;
      SplitTiles(b, recs[..k], o, recs[k], recs[k + 1..], e);
      TilesParse(SplitAt(b, o, recs[k], e), 0, Inserted(recs, k, e));
    }
  }

  /** The record at `p` takes over the space of its successor at `o`, whose header is cleared. */
  function MergeAt(b: Block, p: nat, r: Rec, o: nat, s: Rec): Block
    requires p + 6 <= BLOCK_SIZE && o + 6 <= BLOCK_SIZE
  {
    Splice(Splice(b, p + 4, Put16(r.recLen + s.recLen)), o, Put32(0) + Put16(0))
  }

  /** `free` on a well-formed block; the first record has no predecessor to merge into. */
  function FreeEntry(b: Block, inode: nat): (bool, Block)
    requires Chain(b, 0) && FindInode(Parse(b, 0), inode) != 0
  {
    var k := FindInode(Parse(b, 0), inode);
    if k == |Parse(b, 0)| then (false, b) else (true, MergeRecord(b, k))
  }

  /** Merges the `k`-th record into the one before it. */
  function MergeRecord(b: Block, k: nat): Block
    requires Chain(b, 0) && 1 <= k < |Parse(b, 0)|
  {
    RecordInTiles(b, k - 1);
    RecordInTiles(b, k);
    MergeAt(b, Total(Parse(b, 0)[..k - 1]), Parse(b, 0)[k - 1], Total(Parse(b, 0)[..k]), Parse(b, 0)[k])
  }

  lemma MergeBytes(b: Block, p: nat, r: Rec, s: Rec)
    requires RecordAt(b, p, r) && RecordAt(b, p + r.recLen, s)
    ensures RecOk(r) && RecOk(s) && p + r.recLen + s.recLen <= BLOCK_SIZE
    ensures RecordAt(MergeAt(b, p, r, p + r.recLen, s), p, Merged(r, s))
  {
    hide Splice, Put16, Put32, Le16, Le32;
    var o := p + r.recLen;
    assert RecOk(r) && RecOk(s) && o + s.recLen <= BLOCK_SIZE;
    hide RecordAt;
    PutRecLen(b, p, r, r.recLen + s.recLen);
    var b1 := Splice(b, p + 4, Put16(r.recLen + s.recLen));
    RecordFrame(b1, MergeAt(b, p, r, o, s), p, Merged(r, s));
  }

  lemma MergeTiles(b: Block, before: seq<Rec>, p: nat, r: Rec, s: Rec, after: seq<Rec>)
    requires Tiles(b, 0, before, p) && RecordAt(b, p, r) && RecordAt(b, p + r.recLen, s)
    requires Tiles(b, p + r.recLen + s.recLen, after, BLOCK_SIZE)
    ensures p + r.recLen + 6 <= BLOCK_SIZE
    ensures Tiles(MergeAt(b, p, r, p + r.recLen, s), 0, before + [Merged(r, s)] + after, BLOCK_SIZE)
  {
    MergeBytes(b, p, r, s);
    hide RecordAt, MergeAt, Tiles, Same;
    var c := MergeAt(b, p, r, p + r.recLen, s);
    OneTile(c, p, Merged(r, s));
    Reassemble(b, c, before, p, [Merged(r, s)], p + r.recLen + s.recLen, after);
  }

  lemma MergeRecordTiles(b: Block, k: nat)
    requires Chain(b, 0) && 1 <= k < |Parse(b, 0)|
    ensures Tiles(MergeRecord(b, k), 0, Removed(Parse(b, 0), k), BLOCK_SIZE)
  {
    hide RecordAt, MergeAt, Tiles, Chain, Parse, Total;
    var recs := Parse(b, 0);
    Around(b, k - 1);
    Around(b, k);
    MergeTiles(b, recs[..k - 1], Total(recs[..k - 1]), recs[k - 1], recs[k], recs[k + 1..]);
  }

  lemma FreeEntryRecords(b: Block, inode: nat)
    requires Chain(b, 0) && FindInode(Parse(b, 0), inode) != 0
    ensures var (ok, c) := FreeEntry(b, inode);
            var recs := Parse(b, 0);
            var k := FindInode(recs, inode);
            && Chain(c, 0)
            && ok == (k < |recs|)
            && Parse(c, 0) == if ok then Removed(recs, k) else recs
  {
    var k := FindInode(Parse(b, 0), inode);
    if k < |Parse(b, 0)| {
      hide Tiles, Chain, Parse, MergeRecord;
      MergeRecordTiles(b, k);
      TilesParse(MergeRecord(b, k), 0, Removed(Parse(b, 0), k));
    }
  }

  /** On bytes: adding an entry for an inode without a record and freeing it restores every record. */
  lemma AddFreeRoundTrip(b: Block, e: Entry)
    requires Chain(b, 0) && EntryOk(e) && AddEntry(b, e).0
    requires forall k :: 0 <= k < |Parse(b, 0)| ==> Parse(b, 0)[k].inode != e.inode
    ensures var c := AddEntry(b, e).1;
            && Chain(c, 0) && FindInode(Parse(c, 0), e.inode) != 0
            && FreeEntry(c, e.inode).0
            && Chain(FreeEntry(c, e.inode).1, 0) && Parse(FreeEntry(c, e.inode).1, 0) == Parse(b, 0)
  {
    hide Chain, Parse, AddEntry, FreeEntry, Insert;
    AddEntryRecords(b, e);
    InsertRemoveRoundTrip(Parse(b, 0), e);
    FreeEntryRecords(AddEntry(b, e).1, e.inode);
  }

  // ----- the whole life of a block -----

  datatype BlockOp = Enter(entry: Entry) | Drop(inode: nat)

  /** Names other than the dots come in, and neither dot record is freed. */
  predicate OpOk(op: BlockOp, self: nat, father: nat) {
    match op
    case Enter(e) => EntryOk(e) && !IsDot(e.name)
    case Drop(inode) => inode != self && inode != father
  }

  predicate RecsGood(recs: seq<Rec>, self: nat, father: nat) {
    Shaped(recs, self) && recs[1].inode == father
  }

  function OnRecs(recs: seq<Rec>, op: BlockOp): seq<Rec>
    requires op.Drop? ==> FindInode(recs, op.inode) != 0
  {
    match op
    case Enter(e) => if Insert(recs, e).Some? then Insert(recs, e).value else recs
    case Drop(inode) =>
      var k := FindInode(recs, inode);
      if k < |recs| then Removed(recs, k) else recs
  }

  function OnBytes(b: Block, op: BlockOp): Block
    requires Chain(b, 0) && (op.Enter? ==> EntryOk(op.entry))
    requires op.Drop? ==> FindInode(Parse(b, 0), op.inode) != 0
  {
    match op
    case Enter(e) => AddEntry(b, e).1
    case Drop(inode) => FreeEntry(b, inode).1
  }

  lemma OnRecsGood(recs: seq<Rec>, op: BlockOp, self: nat, father: nat)
    requires RecsGood(recs, self, father) && OpOk(op, self, father)
    ensures op.Drop? ==> FindInode(recs, op.inode) >= 2
    ensures RecsGood(OnRecs(recs, op), self, father)
  {
    assert |recs| >= 2 && recs[0].inode == self;
    hide Shaped, Total;
    match op
    case Enter(e) =>
      var k := FirstFit(recs, Need(|e.name|));
      if k < |recs| {
        InsertedShaped(recs, self, k, e);
        InsertedEntries(recs, k, e);
      }
    case Drop(inode) =>
      var k := FindInode(recs, inode);
      if k < |recs| {
        RemovedShaped(recs, self, k);
      }
  }

  lemma OnBytesIsOnRecs(b: Block, op: BlockOp, self: nat, father: nat)
    requires Chain(b, 0) && RecsGood(Parse(b, 0), self, father) && OpOk(op, self, father)
    ensures op.Drop? ==> FindInode(Parse(b, 0), op.inode) >= 2
    ensures Chain(OnBytes(b, op), 0) && Parse(OnBytes(b, op), 0) == OnRecs(Parse(b, 0), op)
    ensures RecsGood(Parse(OnBytes(b, op), 0), self, father)
  {
    hide Chain, Parse, AddEntry, FreeEntry, Insert, RecsGood, FindInode, Removed;
    OnRecsGood(Parse(b, 0), op, self, father);
    match op
    case Enter(e) => AddEntryRecords(b, e);
    case Drop(inode) => FreeEntryRecords(b, inode);
  }

  /** The records after any operations, by the model on records. */
  ghost function LifeOfRecs(ops: seq<BlockOp>, self: nat, father: nat): (recs: seq<Rec>)
    requires self < 0x1_0000_0000 && father < 0x1_0000_0000 && forall k :: 0 <= k < |ops| ==> OpOk(ops[k], self, father)
    ensures RecsGood(recs, self, father)
    decreases |ops|
  {
    InitShaped(self, father);
    if ops == [] then InitRecs(self, father)
    else
      var recs, op := LifeOfRecs(ops[..|ops| - 1], self, father), ops[|ops| - 1];
      OnRecsGood(recs, op, self, father);
      OnRecs(recs, op)
  }

  /** The bytes after any operations always parse, and as the records of the model. */
  ghost function LifeOfBytes(ops: seq<BlockOp>, self: nat, father: nat): (b: Block)
    requires self < 0x1_0000_0000 && father < 0x1_0000_0000 && forall k :: 0 <= k < |ops| ==> OpOk(ops[k], self, father)
    ensures Chain(b, 0) && Parse(b, 0) == LifeOfRecs(ops, self, father) && RecsGood(Parse(b, 0), self, father)
    decreases |ops|
  {
    InitBlockRecords(self, father);
    if ops == [] then InitBlock(self, father)
    else
      var b, op := LifeOfBytes(ops[..|ops| - 1], self, father), ops[|ops| - 1];
      OnBytesIsOnRecs(b, op, self, father);
      OnBytes(b, op)
  }
}
