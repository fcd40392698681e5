/** Adding an entry to a live directory keeps the invariant and inserts into the directory's map. */
module DirUpdates {
  import opened Bytes
  import opened Geometry
  import opened Inodes
  import opened DirRecords
  import opened Fs
  import opened Invariant
  import A = Allocation
  import B = DirBlock
  import D = Directories
  import G = Growth
  import F = Files
  import L = LruModel

  /** A live directory. */
  ghost predicate LiveDir(fs: Fs, ino: nat) {
    Live(fs, ino) && IsDir(GetInode(fs, ino))
  }

  lemma DirFacts(fs: Fs, ino: nat)
    requires Inv(fs) && LiveDir(fs, ino)
    ensures DirectOnly(GetInode(fs, ino)) && AllBlocks(fs, ino) == List(fs, ino)
    ensures Owned(fs, List(fs, ino)) && DirGood(fs, ino, List(fs, ino)) && TreesOk(fs, GetInode(fs, ino))
  {
    assert NodeGood(fs, ino);
    AllBlocksDirect(fs, ino);
    hide DirectOnly, Owned, DirGood, TreesOk;
  }

  // ----- one block changes -----

  lemma EntriesInserted(fs: Fs, recs: seq<Rec>, k: nat, e: Entry)
    requires EntriesLive(fs, recs) && Live(fs, e.inode) && k < |recs| && Slack(recs[k]) >= 0
    ensures EntriesLive(fs, Inserted(recs, k, e))
  {
    InsertedEntries(recs, k, e);
    var recs' := Inserted(recs, k, e);
    forall j | 0 <= j < |recs'| ensures Live(fs, recs'[j].inode) {
      if j <= k {
        assert ToEntry(recs'[j]) == ToEntry(recs[j]);
      } else if j == k + 1 {
        assert ToEntry(recs'[j]) == e;
      }
    }
  }

  lemma TakenRecords(fs: Fs, fs': Fs, b: nat, e: Entry) returns (k: nat)
    requires DirBlockOk(fs, b) && EntryOk(e) && Takes(fs, b, e)
    requires fs' == PutData(fs, b, B.AddEntry(fs.data[b], e).1)
    ensures DirBlockOk(fs', b) && k < |RecsOf(fs, b)| && Slack(RecsOf(fs, b)[k]) >= Need(|e.name|)
    ensures RecsOf(fs', b) == Inserted(RecsOf(fs, b), k, e)
  {
    k := FirstFit(RecsOf(fs, b), Need(|e.name|));
    hide B.Chain, B.Parse, B.AddEntry;
    B.AddEntryRecords(fs.data[b], e);
  }

  lemma EntriesSame(fs: Fs, fs': Fs, recs: seq<Rec>)
    requires EntriesLive(fs, recs) && fs'.inodes == fs.inodes && fs'.inodeBits == fs.inodeBits
    ensures EntriesLive(fs', recs)
  {
  }

  /** The block that takes an entry stays well formed and lists one entry more. */
  lemma BlockTakes(fs: Fs, fs': Fs, b: nat, ino: nat, e: Entry) returns (p: nat)
    requires DirBlockGood(fs, b, ino) && EntryOk(e) && !IsDot(e.name) && Live(fs, e.inode) && Takes(fs, b, e)
    requires fs' == PutData(fs, b, B.AddEntry(fs.data[b], e).1)
    ensures DirBlockGood(fs', b, ino)
    ensures p <= |D.NonDot(RecsOf(fs, b))| && D.NonDot(RecsOf(fs', b)) == D.PutIn(D.NonDot(RecsOf(fs, b)), p, e)
  {
    hide DirBlockOk, RecsOf, D.NonDot, Inserted, Shaped, B.AddEntry, EntriesLive, Live;
    var k := TakenRecords(fs, fs', b, e);
    InsertedShaped(RecsOf(fs, b), ino, k, e);
    EntriesInserted(fs, RecsOf(fs, b), k, e);
    EntriesSame(fs, fs', RecsOf(fs', b));
    p := D.NonDotInserted(RecsOf(fs, b), k, e);
  }

  lemma {:induction false} ListingUpdated(fs: Fs, fs': Fs, blocks: seq<nat>, k: nat, i: nat, p: nat,
      e: Entry) returns (q: nat)
    requires DirBlocksOk(fs, blocks) && DirBlocksOk(fs', blocks) && i <= k < |blocks|
    requires forall j :: 0 <= j < |blocks| && j != k ==> fs'.data[blocks[j]] == fs.data[blocks[j]]
    requires p <= |D.NonDot(RecsOf(fs, blocks[k]))|
    requires D.NonDot(RecsOf(fs', blocks[k])) == D.PutIn(D.NonDot(RecsOf(fs, blocks[k])), p, e)
    ensures q <= |D.Listing(fs, blocks, i)| && D.Listing(fs', blocks, i) == D.PutIn(D.Listing(fs, blocks, i), q, e)
    decreases k - i
  {
    hide D.NonDot, B.Chain, B.Parse;
    var here, here' := D.NonDot(RecsOf(fs, blocks[i])), D.NonDot(RecsOf(fs', blocks[i]));
    var rest, rest' := D.Listing(fs, blocks, i + 1), D.Listing(fs', blocks, i + 1);
    if i < k {
      var r := ListingUpdated(fs, fs', blocks, k, i + 1, p, e);
      q := |here| + r;
      assert here + (rest[..r] + [e] + rest[r..]) == (here + rest)[..q] + [e] + (here + rest)[q..];
    } else {
      ListingSame(fs, fs', blocks, i + 1);
      q := p;
      assert here[..p] + [e] + here[p..] + rest == (here + rest)[..q] + [e] + (here + rest)[q..];
    }
  }

  lemma {:induction false} ListingSame(fs: Fs, fs': Fs, blocks: seq<nat>, i: nat)
    requires DirBlocksOk(fs, blocks) && DirBlocksOk(fs', blocks) && i <= |blocks|
    requires forall j :: i <= j < |blocks| ==> fs'.data[blocks[j]] == fs.data[blocks[j]]
    ensures D.Listing(fs', blocks, i) == D.Listing(fs, blocks, i)
    decreases |blocks| - i
  {
    hide D.NonDot, B.Chain, B.Parse;
    if i < |blocks| {
      ListingSame(fs, fs', blocks, i + 1);
    }
  }

  lemma OtherBlocks(fs: Fs, fs': Fs, ino: nat, blocks: seq<nat>, k: nat)
    requires L.Distinct(blocks) && k < |blocks| && DirGood(fs, ino, blocks)
    requires blocks[k] in fs'.data && fs' == PutData(fs, blocks[k], fs'.data[blocks[k]])
    requires DirBlockGood(fs', blocks[k], ino)
    ensures DirBlocksOk(fs', blocks) && forall j :: 0 <= j < |blocks| ==> DirBlockGood(fs', blocks[j], ino)
    ensures forall j :: 0 <= j < |blocks| && j != k ==>
              blocks[j] in fs.data && fs'.data[blocks[j]] == fs.data[blocks[j]]
  {
    forall j | 0 <= j < |blocks|
      ensures DirBlockGood(fs', blocks[j], ino) && DirBlockOk(fs', blocks[j])
      ensures j != k ==> blocks[j] in fs.data && fs'.data[blocks[j]] == fs.data[blocks[j]]
    {
      assert DirBlockGood(fs, blocks[j], ino);
      hide B.Chain, B.Parse, Shaped, EntriesLive;
    }
  }

  // ----- an entry goes into an existing block -----

  lemma PutDataIsOwn(fs: Fs, fs': Fs, ino: nat, b: nat)
    requires Inv(fs) && Live(fs, ino) && b in List(fs, ino) && b in fs.data
    requires b in fs'.data && fs' == PutData(fs, b, fs'.data[b])
    ensures F.OwnUpdate(fs, fs', ino) && Ok(fs) && A.MetaMarked(fs)
  {
    hide AllGood, AllDisjoint, Direct, InodeOk, A.MetaMarked;
  }

  lemma PutDataFrame(fs: Fs, fs': Fs, ino: nat, b: nat)
    requires Inv(fs) && Live(fs, ino) && b in List(fs, ino) && b in fs.data
    requires b in fs'.data && fs' == PutData(fs, b, fs'.data[b])
    ensures Ok(fs') && A.MetaMarked(fs') && Changes(fs, fs', ino)
    ensures List(fs', ino) == List(fs, ino) && GetInode(fs', ino) == GetInode(fs, ino)
  {
    hide Inv, Direct, Ok, A.MetaMarked, F.OwnUpdate, Changes;
    PutDataIsOwn(fs, fs', ino, b);
    F.OwnUpdateOk(fs, fs', ino);
    F.OwnUpdateChanges(fs, fs', ino);
  }

  /** A directory of which one block was rewritten, well formed and without a name occurring twice. */
  lemma RewriteKeeps(fs: Fs, fs': Fs, ino: nat, k: nat)
    requires Inv(fs) && LiveDir(fs, ino) && k < |List(fs, ino)| && List(fs, ino)[k] in fs'.data
    requires fs' == PutData(fs, List(fs, ino)[k], fs'.data[List(fs, ino)[k]])
    requires DirBlockGood(fs', List(fs, ino)[k], ino)
    requires DirBlocksOk(fs', List(fs, ino)) && D.UniqueNames(D.Listing(fs', List(fs, ino), 0))
    ensures Inv(fs') && LiveDir(fs', ino) && List(fs', ino) == List(fs, ino) && Changes(fs, fs', ino)
  {
    hide Inv, DirGood, DirBlockGood, B.Chain, B.Parse, D.Listing, D.UniqueNames, Ok, A.MetaMarked, Changes, Owned,
         DirectOnly;
    DirFacts(fs, ino);
    var blocks := List(fs, ino);
    DirParts(fs, ino, blocks);
    OwnedParts(fs, blocks, k);
    OtherBlocks(fs, fs', ino, blocks, k);
    DirWhole(fs', ino, blocks);
    PutDataFrame(fs, fs', ino, blocks[k]);
    OwnedSame(fs, fs', blocks);
    ChangeKeeps(fs, fs', ino);
  }

  /** An existing block takes the entry. */
  lemma AddToBlockKeeps(fs: Fs, ino: nat, k: nat, e: Entry) returns (q: nat)
    requires Inv(fs) && LiveDir(fs, ino) && Live(fs, e.inode) && EntryOk(e) && !IsDot(e.name)
    requires DirBlocksOk(fs, List(fs, ino)) && !D.HasName(D.Listing(fs, List(fs, ino), 0), e.name)
    requires k < |List(fs, ino)| && Takes(fs, List(fs, ino)[k], e)
    ensures var fs' := PutData(fs, List(fs, ino)[k], B.AddEntry(fs.data[List(fs, ino)[k]], e).1);
            && Inv(fs') && LiveDir(fs', ino) && List(fs', ino) == List(fs, ino) && DirBlocksOk(fs', List(fs, ino))
            && Changes(fs, fs', ino)
            && q <= |D.Listing(fs, List(fs, ino), 0)|
            && D.Listing(fs', List(fs, ino), 0) == D.PutIn(D.Listing(fs, List(fs, ino), 0), q, e)
  {
    hide Inv, DirGood, DirBlockGood, B.Chain, B.Parse, B.AddEntry, D.NonDot, D.Listing, D.HasName, D.UniqueNames,
         Changes, Owned, DirectOnly;
    DirFacts(fs, ino);
    var blocks := List(fs, ino);
    var fs' := PutData(fs, blocks[k], B.AddEntry(fs.data[blocks[k]], e).1);
    DirParts(fs, ino, blocks);
    OwnedParts(fs, blocks, k);
    var p := BlockTakes(fs, fs', blocks[k], ino, e);
    OtherBlocks(fs, fs', ino, blocks, k);
    q := ListingUpdated(fs, fs', blocks, k, 0, p, e);
    D.UniquePutIn(D.Listing(fs, blocks, 0), q, e);
    RewriteKeeps(fs, fs', ino, k);
  }

  lemma DirParts(fs: Fs, ino: nat, blocks: seq<nat>)
    requires DirGood(fs, ino, blocks)
    ensures DirBlocksOk(fs, blocks) && blocks != [] && D.UniqueNames(D.Listing(fs, blocks, 0))
    ensures forall k :: 0 <= k < |blocks| ==> DirBlockGood(fs, blocks[k], ino)
  {
  }

  lemma DirWhole(fs: Fs, ino: nat, blocks: seq<nat>)
    requires blocks != [] && DirBlocksOk(fs, blocks) && D.UniqueNames(D.Listing(fs, blocks, 0))
    requires forall k :: 0 <= k < |blocks| ==> DirBlockGood(fs, blocks[k], ino)
    ensures DirGood(fs, ino, blocks)
  {
  }

  lemma OwnedParts(fs: Fs, blocks: seq<nat>, k: nat)
    requires Owned(fs, blocks) && k < |blocks|
    ensures L.Distinct(blocks) && blocks[k] in fs.data && blocks[k] in blocks
  {
  }

  lemma OwnedSame(fs: Fs, fs': Fs, blocks: seq<nat>)
    requires Owned(fs, blocks) && fs'.blockBits == fs.blockBits && fs.data.Keys <= fs'.data.Keys
    ensures Owned(fs', blocks)
  {
  }

  // ----- an entry goes into a new block -----

  /** The records of a new block with its first entry. */
  function FirstRecs(ino: nat, father: nat, e: Entry): seq<Rec>
    requires Slack(InitRecs(ino, father)[1]) >= 0
  {
    Inserted(InitRecs(ino, father), 1, e)
  }

  lemma FirstRecsShaped(ino: nat, father: nat, e: Entry)
    requires ino < 0x1_0000_0000 && father < 0x1_0000_0000 && EntryOk(e) && !IsDot(e.name)
    ensures Slack(InitRecs(ino, father)[1]) >= 0
    ensures Shaped(FirstRecs(ino, father, e), ino)
  {
    InitTakesAnyName(ino, father, e);
    InitShaped(ino, father);
    hide Shaped, Need, Inserted;
    InsertedShaped(InitRecs(ino, father), ino, 1, e);
  }

  lemma FirstRecsEntries(ino: nat, father: nat, e: Entry)
    requires Slack(InitRecs(ino, father)[1]) >= 0 && !IsDot(e.name)
    ensures D.NonDot(FirstRecs(ino, father, e)) == [e]
  {
    hide D.NonDot, Inserted, Need;
    InitHasNoEntries(ino, father);
    var p := D.NonDotInserted(InitRecs(ino, father), 1, e);
    assert D.PutIn([], p, e) == [e];
  }

  lemma FirstRecsLive(fs: Fs, ino: nat, father: nat, e: Entry)
    requires Slack(InitRecs(ino, father)[1]) >= 0 && Live(fs, ino) && Live(fs, father) && Live(fs, e.inode)
    ensures EntriesLive(fs, FirstRecs(ino, father, e))
  {
    hide Inserted, Need;
    assert EntriesLive(fs, InitRecs(ino, father)) by { hide Live; }
    EntriesInserted(fs, InitRecs(ino, father), 1, e);
  }

  lemma NewBlockGood(fs: Fs, b: nat, ino: nat, father: nat, e: Entry)
    requires ino < 0x1_0000_0000 && father < 0x1_0000_0000 && EntryOk(e) && !IsDot(e.name)
    requires Live(fs, ino) && Live(fs, father) && Live(fs, e.inode)
    requires b in fs.data && fs.data[b] == FirstEntry(ino, father, e)
    ensures DirBlockGood(fs, b, ino) && D.NonDot(RecsOf(fs, b)) == [e]
  {
    hide B.Chain, B.Parse, FirstEntry, Inserted, Shaped, D.NonDot, EntriesLive, Live, EntryOk, InitRecs, B.InitBlock,
         B.AddEntry, Need;
    FirstRecsShaped(ino, father, e);
    D.FreshBlockTakes(ino, father, e);
    FirstRecsEntries(ino, father, e);
    FirstRecsLive(fs, ino, father, e);
  }

  lemma InitHasNoEntries(ino: nat, father: nat)
    ensures D.NonDot(InitRecs(ino, father)) == []
  {
    var recs := InitRecs(ino, father);
    assert recs == [recs[0]] + [recs[1]];
    D.NonDotConcat([recs[0]], [recs[1]]);
    D.NonDotOne(recs[0]);
    D.NonDotOne(recs[1]);
  }

  lemma {:induction false} ListingAppended(fs: Fs, blocks: seq<nat>, n: nat, i: nat)
    requires DirBlocksOk(fs, blocks + [n]) && i <= |blocks|
    ensures DirBlocksOk(fs, blocks) && DirBlockOk(fs, n)
    ensures D.Listing(fs, blocks + [n], i) == D.Listing(fs, blocks, i) + D.NonDot(RecsOf(fs, n))
    decreases |blocks| - i
  {
    var all := blocks + [n];
    assert DirBlockOk(fs, all[|blocks|]);
    assert forall k :: 0 <= k < |blocks| ==> all[k] == blocks[k] && DirBlockOk(fs, all[k]);
    hide D.NonDot, B.Chain, B.Parse;
    if i < |blocks| {
      ListingAppended(fs, blocks, n, i + 1);
    } else {
      assert D.Listing(fs, all, i + 1) == [];
    }
  }

  /** A directory whose old blocks are unchanged and whose last block is a good new one. */
  lemma DirExtended(fs: Fs, fs': Fs, ino: nat, blocks: seq<nat>, n: nat, e: Entry)
    requires DirGood(fs, ino, blocks) && Grows(fs, fs') && DirBlockGood(fs', n, ino)
    requires forall k :: 0 <= k < |blocks| ==> blocks[k] in fs'.data && fs'.data[blocks[k]] == fs.data[blocks[k]]
    requires D.NonDot(RecsOf(fs', n)) == [e] && !D.HasName(D.Listing(fs, blocks, 0), e.name)
    ensures DirGood(fs', ino, blocks + [n])
    ensures D.Listing(fs', blocks + [n], 0) == D.Listing(fs, blocks, 0) + [e]
  {
    hide DirBlockGood, D.NonDot, D.UniqueNames, D.HasName, Grows, D.Listing, B.Chain, B.Parse;
    DirKept(fs, fs', ino, blocks);
    DirParts(fs, ino, blocks);
    DirParts(fs', ino, blocks);
    ListingKept(fs, fs', blocks, 0);
    var all := blocks + [n];
    assert forall k :: 0 <= k < |all| ==> DirBlockGood(fs', all[k], ino);
    GoodIsOk(fs', all, ino);
    ListingAppended(fs', blocks, n, 0);
    var s := D.Listing(fs, blocks, 0);
    D.UniquePutIn(s, |s|, e);
    assert D.PutIn(s, |s|, e) == s + [e];
    DirWhole(fs', ino, all);
  }

  lemma GoodIsOk(fs: Fs, blocks: seq<nat>, ino: nat)
    requires forall k :: 0 <= k < |blocks| ==> DirBlockGood(fs, blocks[k], ino)
    ensures DirBlocksOk(fs, blocks)
  {
    forall k | 0 <= k < |blocks| ensures DirBlockOk(fs, blocks[k]) {
      assert DirBlockGood(fs, blocks[k], ino);
      hide B.Chain;
    }
  }

  /** The data of the blocks of `a` is the same. */
  ghost predicate DataSame(fs: Fs, fs': Fs, a: nat)
    requires IsInode(fs, a)
  {
    forall k :: 0 <= k < |List(fs, a)| ==>
      List(fs, a)[k] in fs'.data && List(fs, a)[k] in fs.data && fs'.data[List(fs, a)[k]] == fs.data[List(fs, a)[k]]
  }

  lemma FreeBlockData(fs: Fs, fs': Fs, n: nat, a: nat)
    requires Inv(fs) && Live(fs, a) && 1 <= n <= |fs.blockBits| && !fs.blockBits[n - 1]
    requires n in fs'.data && fs'.data == fs.data[n := fs'.data[n]]
    ensures DataSame(fs, fs', a)
  {
    hide Inv, Direct, Owned;
    G.FreeNotListed(fs, a, n);
    G.LiveOwned(fs, a);
    G.OwnedData(fs, List(fs, a));
    assert forall k :: 0 <= k < |List(fs, a)| ==> List(fs, a)[k] in List(fs, a);
  }

  lemma FreeBlockUndisturbed(fs: Fs, grown: Fs, fs': Fs, ino: nat, n: nat, a: nat)
    requires Inv(fs) && Live(fs, a) && a != ino && 1 <= n <= |fs.blockBits| && !fs.blockBits[n - 1]
    requires Undisturbed(fs, grown, a) && grown.data == fs.data
    requires n in fs'.data && fs' == PutData(grown, n, fs'.data[n])
    ensures Undisturbed(fs, fs', a)
  {
    hide Inv, Direct;
    FreeBlockData(fs, fs', n, a);
  }

  /** Filling in the data of the block just added disturbs nobody else. */
  lemma FilledFrame(fs: Fs, grown: Fs, fs': Fs, ino: nat, n: nat)
    requires Inv(fs) && Live(fs, ino) && G.Appended(fs, grown, ino, n)
    requires n in fs'.data && fs' == PutData(grown, n, fs'.data[n])
    ensures Ok(fs') && A.MetaMarked(fs') && Changes(fs, fs', ino)
  {
    hide Inv, Direct, Disjoint, Undisturbed, DirectOnly, Owned;
    forall a | Live(fs, a) && a != ino ensures Undisturbed(fs, fs', a) {
      FreeBlockUndisturbed(fs, grown, fs', ino, n, a);
    }
  }

  /** What the allocation of a new directory block and the write of its first entry lead to. */
  ghost predicate NewBlockStep(fs: Fs, fs': Fs, ino: nat, n: nat, father: nat, e: Entry)
    requires EntryOk(e)
  {
    && Ok(fs') && A.MetaMarked(fs') && Changes(fs, fs', ino) && IsInode(fs, ino) && DataSame(fs, fs', ino)
    && n in fs'.data && fs'.data[n] == FirstEntry(ino, father, e)
    && DirectOnly(GetInode(fs', ino)) && List(fs', ino) == List(fs, ino) + [n] && Owned(fs', List(fs', ino))
    && GetInode(fs', ino).mode == GetInode(fs, ino).mode
  }

  lemma NewBlockAssembled(fs: Fs, grown: Fs, fs': Fs, ino: nat, n: nat, father: nat, e: Entry)
    requires Inv(fs) && Live(fs, ino) && EntryOk(e) && G.Appended(fs, grown, ino, n)
    requires fs' == PutData(grown, n, FirstEntry(ino, father, e))
    ensures NewBlockStep(fs, fs', ino, n, father, e)
  {
    hide Inv, FirstEntry, Owned, Changes, Ok, A.MetaMarked, DirectOnly, Direct, DataSame;
    FilledFrame(fs, grown, fs', ino, n);
    FreeBlockData(fs, fs', n, ino);
    OwnedSame(grown, fs', List(grown, ino));
  }

  lemma NewBlockReached(fs: Fs, ino: nat, e: Entry) returns (n: nat, father: nat)
    requires Inv(fs) && Live(fs, ino) && EntryOk(e) && CanAddEntry(fs, ino, e)
    requires FirstTaker(fs, AllBlocks(fs, ino), e, 0) == |AllBlocks(fs, ino)|
    ensures DirBlockOk(fs, GetInode(fs, ino).block[0])
    ensures Some(father) == Father(RecsOf(fs, GetInode(fs, ino).block[0]))
    ensures NewBlockStep(fs, AddEntry(fs, ino, e), ino, n, father, e)
  {
    assert Ok(fs) && A.MetaMarked(fs);
    hide Inv, AddBlock, CanAddEntry, CanAddBlock, B.Chain, B.Parse, FirstEntry, AllBlocks, Ok, A.MetaMarked, FirstTaker,
         AddEntry, G.Appended, NewBlockStep, B.AddEntry, B.InitBlock;
    D.NewBlockFacts(fs, ino, e);
    G.AddBlockAppends(fs, ino);
    n := AddBlock(fs, ino).0;
    father := Father(RecsOf(fs, GetInode(fs, ino).block[0])).value;
    NewBlockAssembled(fs, AddBlock(fs, ino).1, AddEntry(fs, ino, e), ino, n, father, e);
  }

  lemma NewBlockDir(fs: Fs, fs': Fs, ino: nat, n: nat, father: nat, e: Entry)
    requires LiveDir(fs, ino) && DirGood(fs, ino, List(fs, ino)) && Live(fs, father) && Live(fs, e.inode)
    requires ino < 0x1_0000_0000 && father < 0x1_0000_0000 && EntryOk(e) && !IsDot(e.name)
    requires DirBlocksOk(fs, List(fs, ino)) && !D.HasName(D.Listing(fs, List(fs, ino), 0), e.name)
    requires NewBlockStep(fs, fs', ino, n, father, e)
    ensures DirGood(fs', ino, List(fs', ino)) && DirBlocksOk(fs', List(fs', ino))
    ensures D.Listing(fs', List(fs', ino), 0) == D.Listing(fs, List(fs, ino), 0) + [e]
  {
    G.ChangesGrows(fs, fs', ino);
    hide Changes, DirGood, DirBlockGood, B.Chain, B.Parse, D.Listing, D.HasName, D.NonDot, FirstEntry, Owned, Ok,
         A.MetaMarked, DirectOnly, Direct, Grows;
    NewBlockGood(fs', n, ino, father, e);
    DirExtended(fs, fs', ino, List(fs, ino), n, e);
    DirParts(fs', ino, List(fs', ino));
  }

  /** A new block takes the entry. */
  lemma AddInNewBlockKeeps(fs: Fs, ino: nat, e: Entry)
    requires Inv(fs) && LiveDir(fs, ino) && Live(fs, e.inode) && EntryOk(e) && !IsDot(e.name)
    requires DirBlocksOk(fs, List(fs, ino)) && !D.HasName(D.Listing(fs, List(fs, ino), 0), e.name)
    requires CanAddEntry(fs, ino, e) && FirstTaker(fs, AllBlocks(fs, ino), e, 0) == |AllBlocks(fs, ino)|
    ensures var fs' := AddEntry(fs, ino, e);
            && Inv(fs') && LiveDir(fs', ino) && Changes(fs, fs', ino) && DirBlocksOk(fs', List(fs', ino))
            && D.Listing(fs', List(fs', ino), 0) == D.Listing(fs, List(fs, ino), 0) + [e]
  {
    hide Inv, CanAddEntry, DirGood, B.Chain, B.Parse, D.Listing, D.HasName, AllBlocks, Owned, Changes, Ok, A.MetaMarked,
         DirectOnly, Direct, FirstTaker, AddEntry, FirstEntry;
    var n, father := NewBlockReached(fs, ino, e);
    DirFacts(fs, ino);
    NewBlockInputs(fs, ino);
    NewBlockDir(fs, AddEntry(fs, ino, e), ino, n, father, e);
    G.ChangesGrows(fs, AddEntry(fs, ino, e), ino);
    ChangeKeeps(fs, AddEntry(fs, ino, e), ino);
  }

  lemma NewBlockInputs(fs: Fs, ino: nat)
    requires Inv(fs) && LiveDir(fs, ino) && DirBlockOk(fs, GetInode(fs, ino).block[0])
    requires Father(RecsOf(fs, GetInode(fs, ino).block[0])).Some?
    ensures var father := Father(RecsOf(fs, GetInode(fs, ino).block[0])).value;
            ino < 0x1_0000_0000 && father < 0x1_0000_0000 && Live(fs, father)
  {
    DirFacts(fs, ino);
    var b := GetInode(fs, ino).block[0];
    assert b == List(fs, ino)[0];
    assert DirBlockGood(fs, b, ino);
    hide B.Chain, B.Parse, Direct, Inv, DirGood;
    assert RecOk(RecsOf(fs, b)[1]) && RecOk(RecsOf(fs, b)[0]);
  }
}
