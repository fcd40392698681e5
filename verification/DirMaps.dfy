/** A live directory is a finite map from names to inode numbers. */
module DirMaps {
  import opened Bytes
  import opened Geometry
  import opened Inodes
  import opened DirRecords
  import opened Fs
  import opened Invariant
  import opened DirUpdates
  import A = Allocation
  import B = DirBlock
  import D = Directories

  /** The map of a directory: its ordinary entries, "." and ".." left out. */
  function MapOf(fs: Fs, ino: nat): map<Name, nat>
    requires IsInode(fs, ino) && DirBlocksOk(fs, AllBlocks(fs, ino))
  {
    D.AsMap(D.Ordinary(fs, ino))
  }

  /** A live directory can be read and searched. */
  lemma DirReadable(fs: Fs, ino: nat)
    requires Inv(fs) && LiveDir(fs, ino)
    ensures AllBlocks(fs, ino) == List(fs, ino) && DirBlocksOk(fs, AllBlocks(fs, ino))
    ensures TreesOk(fs, GetInode(fs, ino)) && D.UniqueNames(D.Ordinary(fs, ino))
  {
    hide Inv, DirectOnly, Owned, D.UniqueNames;
    DirFacts(fs, ino);
  }

  // ----- "." and ".." are always found -----

  lemma {:induction false} CollectExtends(acc: seq<Entry>, recs: seq<Rec>)
    ensures acc <= Collect(acc, recs)
    decreases |recs|
  {
    if recs != [] {
      if !(|acc| > 2 && IsDot(recs[0].name)) {
        CollectExtends(acc + [ToEntry(recs[0])], recs[1..]);
      } else {
        CollectExtends(acc, recs[1..]);
      }
    }
  }

  lemma {:induction false} CollectBlocksExtends(fs: Fs, acc: seq<Entry>, blocks: seq<nat>, i: nat)
    requires DirBlocksOk(fs, blocks) && i <= |blocks|
    ensures acc <= CollectBlocks(fs, acc, blocks, i)
    decreases |blocks| - i
  {
    if i < |blocks| {
      hide Collect, B.Chain, B.Parse;
      CollectExtends(acc, RecsOf(fs, blocks[i]));
      CollectBlocksExtends(fs, Collect(acc, RecsOf(fs, blocks[i])), blocks, i + 1);
    }
  }

  lemma FirstTwo(recs: seq<Rec>)
    requires |recs| >= 2
    ensures [ToEntry(recs[0]), ToEntry(recs[1])] <= Collect([], recs)
  {
    var one := [ToEntry(recs[0])];
    assert [] + one == one;
    assert Collect([], recs) == Collect(one, recs[1..]);
    assert Collect(one, recs[1..]) == Collect(one + [ToEntry(recs[1])], recs[1..][1..]);
    CollectExtends(one + [ToEntry(recs[1])], recs[1..][1..]);
  }

  /** The entries of a directory begin with the first two records of its first block. */
  lemma EntriesBegin(fs: Fs, ino: nat)
    requires Inv(fs) && LiveDir(fs, ino)
    ensures DirBlocksOk(fs, AllBlocks(fs, ino)) && List(fs, ino) != [] && DirBlockOk(fs, List(fs, ino)[0])
    ensures var recs := RecsOf(fs, List(fs, ino)[0]);
            && |recs| >= 2 && recs[0].inode == ino && recs[0].name == DOT && recs[1].name == DOT_DOT
            && [ToEntry(recs[0]), ToEntry(recs[1])] <= AllEntries(fs, ino)
  {
    hide Inv, Direct, DirectOnly, Owned, TreesOk, B.Chain, B.Parse, D.Listing, D.UniqueNames, EntriesLive;
    DirFacts(fs, ino);
    var blocks := List(fs, ino);
    assert DirBlockGood(fs, blocks[0], ino);
    var recs := RecsOf(fs, blocks[0]);
    hide Collect, AllBlocks, DirGood, DirBlockGood;
    FirstTwo(recs);
    CollectBlocksExtends(fs, Collect([], recs), blocks, 1);
    assert AllEntries(fs, ino) == CollectBlocks(fs, Collect([], recs), blocks, 1);
  }

  // ----- the list of all entries -----

  lemma CollectStep(acc: seq<Entry>, recs: seq<Rec>)
    requires |acc| > 2
    ensures recs == [] ==> Collect(acc, recs) == acc && D.NonDot(recs) == []
    ensures recs != [] ==>
              var mine := if IsDot(recs[0].name) then [] else [ToEntry(recs[0])];
              Collect(acc, recs) == Collect(acc + mine, recs[1..]) && D.NonDot(recs) == mine + D.NonDot(recs[1..])
  {
    hide IsDot;
    assert acc + [] == acc;
  }

  lemma {:induction false} CollectLater(acc: seq<Entry>, recs: seq<Rec>)
    requires |acc| > 2
    ensures Collect(acc, recs) == acc + D.NonDot(recs)
    decreases |recs|
  {
    hide Collect, D.NonDot, IsDot;
    CollectStep(acc, recs);
    if recs == [] {
      assert acc + [] == acc;
    } else {
      var mine := if IsDot(recs[0].name) then [] else [ToEntry(recs[0])];
      CollectLater(acc + mine, recs[1..]);
      assert acc + mine + D.NonDot(recs[1..]) == acc + (mine + D.NonDot(recs[1..]));
    }
  }

  lemma {:induction false} CollectBlocksLater(fs: Fs, acc: seq<Entry>, blocks: seq<nat>, i: nat)
    requires DirBlocksOk(fs, blocks) && i <= |blocks| && |acc| > 2
    ensures CollectBlocks(fs, acc, blocks, i) == acc + D.Listing(fs, blocks, i)
    decreases |blocks| - i
  {
    if i < |blocks| {
      hide Collect, B.Chain, B.Parse, D.NonDot;
      var recs := RecsOf(fs, blocks[i]);
      CollectLater(acc, recs);
      CollectBlocksLater(fs, acc + D.NonDot(recs), blocks, i + 1);
      var rest := D.Listing(fs, blocks, i + 1);
      assert acc + D.NonDot(recs) + rest == acc + (D.NonDot(recs) + rest);
    }
  }

  lemma CollectOne(acc: seq<Entry>, recs: seq<Rec>)
    requires recs != [] && |acc| <= 2
    ensures Collect(acc, recs) == Collect(acc + [ToEntry(recs[0])], recs[1..])
    ensures D.NonDot(recs)
            == (if IsDot(recs[0].name) then [] else [ToEntry(recs[0])]) + D.NonDot(recs[1..])
  {
    hide IsDot, ToEntry;
  }

  lemma CollectNone(acc: seq<Entry>)
    ensures Collect(acc, []) == acc && D.NonDot([]) == []
  {
  }

  /** The records of the first block, both dots included. */
  lemma CollectFirst(recs: seq<Rec>, self: nat)
    requires Shaped(recs, self)
    ensures Collect([], recs) == [ToEntry(recs[0]), ToEntry(recs[1])] + D.NonDot(recs)
  {
    hide Total, RecsOk, Collect, D.NonDot, ToEntry;
    var one, dots := [ToEntry(recs[0])], [ToEntry(recs[0]), ToEntry(recs[1])];
    CollectOne([], recs);
    CollectOne(one, recs[1..]);
    assert [] + one == one && one + [ToEntry(recs[1])] == dots && recs[1..][1..] == recs[2..];
    assert Collect([], recs) == Collect(dots, recs[2..]) && D.NonDot(recs) == D.NonDot(recs[2..]);
    CollectRest(dots, recs[2..]);
  }

  /** Behind the dots there are ordinary names only. */
  lemma CollectRest(dots: seq<Entry>, recs: seq<Rec>)
    requires |dots| == 2 && (recs != [] ==> !IsDot(recs[0].name))
    ensures Collect(dots, recs) == dots + D.NonDot(recs)
  {
    hide Collect, D.NonDot, ToEntry, IsDot;
    if recs == [] {
      CollectNone(dots);
      assert dots + [] == dots;
    } else {
      CollectOne(dots, recs);
      CollectLater(dots + [ToEntry(recs[0])], recs[1..]);
      assert dots + [ToEntry(recs[0])] + D.NonDot(recs[1..]) == dots + ([ToEntry(recs[0])] + D.NonDot(recs[1..]));
    }
  }

  /** A second block, when the first one had nothing but the dots. */
  lemma CollectSecond(dots: seq<Entry>, recs: seq<Rec>, self: nat)
    requires |dots| == 2 && Shaped(recs, self)
    ensures Collect(dots, recs) == dots + [ToEntry(recs[0])] + D.NonDot(recs)
  {
    hide Total, RecsOk, Collect, D.NonDot, ToEntry;
    CollectOne(dots, recs);
    CollectLater(dots + [ToEntry(recs[0])], recs[1..]);
  }

  lemma CollectHead(fs: Fs, acc: seq<Entry>, blocks: seq<nat>, i: nat)
    requires DirBlocksOk(fs, blocks) && i <= |blocks|
    ensures i < |blocks| ==>
              && CollectBlocks(fs, acc, blocks, i)
                 == CollectBlocks(fs, Collect(acc, RecsOf(fs, blocks[i])), blocks, i + 1)
              && D.Listing(fs, blocks, i) == D.NonDot(RecsOf(fs, blocks[i])) + D.Listing(fs, blocks, i + 1)
    ensures i == |blocks| ==> CollectBlocks(fs, acc, blocks, i) == acc && D.Listing(fs, blocks, i) == []
  {
    hide B.Chain, B.Parse, D.NonDot, Collect;
  }

  lemma SomeOrdinary(recs: seq<Rec>, self: nat)
    requires Shaped(recs, self)
    ensures D.NonDot(recs) == [] <==> |recs| == 2
  {
    hide Total, RecsOk;
    assert recs[1..][1..] == recs[2..] && D.NonDot(recs) == D.NonDot(recs[2..]);
    if |recs| > 2 {
      assert recs[2..][0] == recs[2];
    }
  }

  /**
   * The list of all entries is both dots of the first block and the ordinary entries of all blocks; but "." is listed
   * once more exactly if there is nothing else in the first block of several.
   */
  lemma AllEntriesAre(fs: Fs, ino: nat)
    requires Inv(fs) && LiveDir(fs, ino)
    ensures DirBlocksOk(fs, AllBlocks(fs, ino)) && AllBlocks(fs, ino) == List(fs, ino) && List(fs, ino) != []
    ensures var blocks := List(fs, ino);
            var recs := RecsOf(fs, blocks[0]);
            && |recs| >= 2
            && var dots := [ToEntry(recs[0]), ToEntry(recs[1])];
               if |recs| == 2 && |blocks| > 1 then
                 && |RecsOf(fs, blocks[1])| >= 2 && RecsOf(fs, blocks[1])[0].name == [46]
                 && AllEntries(fs, ino) == dots + [ToEntry(RecsOf(fs, blocks[1])[0])] + D.Ordinary(fs, ino)
               else AllEntries(fs, ino) == dots + D.Ordinary(fs, ino)
  {
    hide Inv, Direct, DirectOnly, Owned, TreesOk, B.Chain, B.Parse, D.UniqueNames, EntriesLive, Total, RecsOk, Collect,
         D.NonDot, AllBlocks, D.Listing, CollectBlocks;
    DirFacts(fs, ino);
    var blocks := List(fs, ino);
    assert DirBlockGood(fs, blocks[0], ino);
    var recs := RecsOf(fs, blocks[0]);
    var dots := [ToEntry(recs[0]), ToEntry(recs[1])];
    CollectFirst(recs, ino);
    SomeOrdinary(recs, ino);
    CollectHead(fs, [], blocks, 0);
    if |recs| > 2 {
      CollectBlocksLater(fs, dots + D.NonDot(recs), blocks, 1);
    } else {
      assert dots + [] == dots;
      CollectHead(fs, dots, blocks, 1);
      if |blocks| > 1 {
        assert DirBlockGood(fs, blocks[1], ino);
        CollectSecond(dots, RecsOf(fs, blocks[1]), ino);
        CollectBlocksLater(fs, dots + [ToEntry(RecsOf(fs, blocks[1])[0])] + D.NonDot(RecsOf(fs, blocks[1])), blocks, 2);
      }
    }
  }

  /** "." always leads to the directory itself, and ".." where the second record says. */
  lemma DotsFound(fs: Fs, ino: nat)
    requires Inv(fs) && LiveDir(fs, ino)
    ensures DirBlocksOk(fs, AllBlocks(fs, ino)) && Find(fs, ino, DOT) == Some(ino)
    ensures List(fs, ino) != [] && DirBlockOk(fs, List(fs, ino)[0]) && |RecsOf(fs, List(fs, ino)[0])| >= 2
    ensures Find(fs, ino, DOT_DOT) == Some(RecsOf(fs, List(fs, ino)[0])[1].inode)
  {
    hide Inv, Direct, B.Chain, B.Parse, AllBlocks, CollectBlocks;
    EntriesBegin(fs, ino);
    var recs, entries := RecsOf(fs, List(fs, ino)[0]), AllEntries(fs, ino);
    assert entries[0] == ToEntry(recs[0]) && entries[1] == ToEntry(recs[1]);
    assert DOT != DOT_DOT by { assert |DOT| != |DOT_DOT|; }
  }

  /** `find_dir_from_inode` looks up the map, and a name it does not find is not a dot name. */
  lemma FindInMap(fs: Fs, ino: nat, name: Name)
    requires Inv(fs) && LiveDir(fs, ino)
    ensures DirBlocksOk(fs, AllBlocks(fs, ino))
    ensures IsDot(name) ==> Find(fs, ino, name).Some?
    ensures !IsDot(name) ==>
              Find(fs, ino, name) == if name in MapOf(fs, ino) then Some(MapOf(fs, ino)[name]) else None
  {
    assert IsInode(fs, ino);
    hide Inv, Find, D.AsMap, D.Listing, D.UniqueNames, TreesOk, LiveDir, Live, AllBlocks;
    DirReadable(fs, ino);
    if IsDot(name) {
      DotsFound(fs, ino);
    } else {
      D.FindIsLookup(fs, ino, name);
    }
  }

  // ----- insertion -----

  /** The caller's side of an insertion: an acceptable name and, when no block takes it, room for one more. */
  predicate EntryFits(fs: Fs, ino: nat, e: Entry)
    requires IsInode(fs, ino) && DirBlocksOk(fs, AllBlocks(fs, ino))
  {
    EntryOk(e) && (FirstTaker(fs, AllBlocks(fs, ino), e, 0) == |AllBlocks(fs, ino)| ==> CanAddBlock(fs, ino))
  }

  lemma FirstBlock(fs: Fs, ino: nat)
    requires Inv(fs) && LiveDir(fs, ino)
    ensures ino < 0x1_0000_0000
    ensures |GetInode(fs, ino).block| > 0 && GetInode(fs, ino).block[0] != 0
        && DirBlockOk(fs, GetInode(fs, ino).block[0])
    ensures Father(RecsOf(fs, GetInode(fs, ino).block[0])).Some?
  {
    DirFacts(fs, ino);
    var b := List(fs, ino)[0];
    assert b == GetInode(fs, ino).block[0] && b in Direct(GetInode(fs, ino));
    assert DirBlockGood(fs, b, ino);
    hide B.Chain, B.Parse, Direct, Inv, DirGood;
    assert RecOk(RecsOf(fs, b)[0]);
  }

  lemma RoomIsEnough(fs: Fs, ino: nat, e: Entry)
    requires Inv(fs) && LiveDir(fs, ino) && DirBlocksOk(fs, AllBlocks(fs, ino)) && EntryFits(fs, ino, e)
    ensures CanAddEntry(fs, ino, e)
  {
    hide Inv, B.Chain, B.Parse, AllBlocks, FirstTaker, CanAddBlock;
    FirstBlock(fs, ino);
  }

  lemma AddEntryInBlock(fs: Fs, ino: nat, e: Entry, k: nat)
    requires CanAddEntry(fs, ino, e) && k == FirstTaker(fs, AllBlocks(fs, ino), e, 0) < |AllBlocks(fs, ino)|
    ensures EntryOk(e) && DirBlockOk(fs, AllBlocks(fs, ino)[k]) && Takes(fs, AllBlocks(fs, ino)[k], e)
    ensures AddEntry(fs, ino, e)
            == PutData(fs, AllBlocks(fs, ino)[k], B.AddEntry(fs.data[AllBlocks(fs, ino)[k]], e).1)
  {
    hide B.Chain, B.AddEntry, AllBlocks, AddBlock, FirstEntry, Father, CanAddBlock, EntryOk;
    FirstTakerMeans(fs, AllBlocks(fs, ino), e, 0);
  }

  /** One directory changed from `fs` to `fs'`; the invariant holds and no other live inode is affected. */
  ghost predicate Updated(fs: Fs, fs': Fs, ino: nat) {
    && Inv(fs') && LiveDir(fs, ino) && LiveDir(fs', ino) && Changes(fs, fs', ino)
    && DirBlocksOk(fs, List(fs, ino)) && DirBlocksOk(fs', List(fs', ino))
  }

  ghost predicate Added(fs: Fs, fs': Fs, ino: nat, q: nat, e: Entry) {
    && Updated(fs, fs', ino)
    && q <= |D.Listing(fs, List(fs, ino), 0)|
    && D.Listing(fs', List(fs', ino), 0) == D.PutIn(D.Listing(fs, List(fs, ino), 0), q, e)
  }

  lemma AddedInBlock(fs: Fs, ino: nat, e: Entry) returns (q: nat)
    requires Inv(fs) && LiveDir(fs, ino) && Live(fs, e.inode) && CanAddEntry(fs, ino, e) && !IsDot(e.name)
    requires DirBlocksOk(fs, List(fs, ino)) && !D.HasName(D.Listing(fs, List(fs, ino), 0), e.name)
    requires AllBlocks(fs, ino) == List(fs, ino) && EntryOk(e)
    requires FirstTaker(fs, AllBlocks(fs, ino), e, 0) < |AllBlocks(fs, ino)|
    ensures Added(fs, AddEntry(fs, ino, e), ino, q, e)
  {
    hide Inv, B.Chain, B.Parse, D.Listing, D.HasName, AllBlocks, Changes, Direct, FirstTaker, Takes, B.AddEntry,
         EntryOk, AddEntry, CanAddEntry;
    var k := FirstTaker(fs, AllBlocks(fs, ino), e, 0);
    AddEntryInBlock(fs, ino, e, k);
    q := AddToBlockKeeps(fs, ino, k, e);
  }

  lemma AddedInNewBlock(fs: Fs, ino: nat, e: Entry) returns (q: nat)
    requires Inv(fs) && LiveDir(fs, ino) && Live(fs, e.inode) && CanAddEntry(fs, ino, e) && !IsDot(e.name)
    requires DirBlocksOk(fs, List(fs, ino)) && !D.HasName(D.Listing(fs, List(fs, ino), 0), e.name)
    requires EntryOk(e) && FirstTaker(fs, AllBlocks(fs, ino), e, 0) == |AllBlocks(fs, ino)|
    ensures Added(fs, AddEntry(fs, ino, e), ino, q, e)
  {
    hide Inv, B.Chain, B.Parse, D.Listing, D.HasName, AllBlocks, Changes, Direct, FirstTaker, EntryOk, AddEntry,
         CanAddEntry;
    AddInNewBlockKeeps(fs, ino, e);
    var s := D.Listing(fs, List(fs, ino), 0);
    q := |s|;
    assert D.PutIn(s, q, e) == s + [e];
  }

  /** The listing gets the entry somewhere; everything else is kept. */
  lemma AddEntryKeeps(fs: Fs, ino: nat, e: Entry) returns (q: nat)
    requires Inv(fs) && LiveDir(fs, ino) && Live(fs, e.inode) && CanAddEntry(fs, ino, e) && !IsDot(e.name)
    requires DirBlocksOk(fs, List(fs, ino)) && !D.HasName(D.Listing(fs, List(fs, ino), 0), e.name)
    ensures Added(fs, AddEntry(fs, ino, e), ino, q, e)
  {
    DirReadable(fs, ino);
    assert EntryOk(e);
    hide Inv, B.Chain, B.Parse, D.Listing, D.HasName, AllBlocks, Direct, LiveDir, FirstTaker, EntryOk, AddEntry,
         CanAddEntry, DirBlocksOk, Added, TreesOk, D.UniqueNames;
    if FirstTaker(fs, AllBlocks(fs, ino), e, 0) < |AllBlocks(fs, ino)| {
      q := AddedInBlock(fs, ino, e);
    } else {
      q := AddedInNewBlock(fs, ino, e);
    }
  }

  lemma ListingAdded(fs: Fs, fs': Fs, ino: nat, q: nat, e: Entry)
    requires Inv(fs) && Added(fs, fs', ino, q, e) && !D.HasName(D.Listing(fs, List(fs, ino), 0), e.name)
    ensures DirBlocksOk(fs, AllBlocks(fs, ino)) && DirBlocksOk(fs', AllBlocks(fs', ino))
    ensures MapOf(fs', ino) == MapOf(fs, ino)[e.name := e.inode]
  {
    hide Inv, B.Chain, B.Parse, D.Listing, D.HasName, AllBlocks, Direct, D.UniqueNames, TreesOk, Changes, D.AsMap,
         D.PutIn;
    DirReadable(fs, ino);
    DirReadable(fs', ino);
    D.MapPutIn(D.Listing(fs, List(fs, ino), 0), q, e);
  }

  // ----- the father stays -----

  /** The second record of the first block leads to the same inode. */
  ghost predicate SameFather(fs: Fs, fs': Fs, b: nat) {
    DirBlockOk(fs, b) && DirBlockOk(fs', b) && |RecsOf(fs, b)| >= 2 && |RecsOf(fs', b)| >= 2
    && RecsOf(fs', b)[1].inode == RecsOf(fs, b)[1].inode
  }

  lemma TakerKeepsFather(fs: Fs, fs': Fs, b: nat, ino: nat, e: Entry)
    requires DirBlockGood(fs, b, ino) && EntryOk(e) && Takes(fs, b, e)
    requires fs' == PutData(fs, b, B.AddEntry(fs.data[b], e).1)
    ensures SameFather(fs, fs', b)
  {
    hide B.Chain, B.Parse, B.AddEntry, EntriesLive, Inserted;
    var k := TakenRecords(fs, fs', b, e);
    assert Slack(RecsOf(fs, b)[0]) == 0 by { assert Need(1) == 12; }
    assert Need(|e.name|) > 0;
    InsertedEntries(RecsOf(fs, b), k, e);
    assert ToEntry(RecsOf(fs', b)[1]) == ToEntry(RecsOf(fs, b)[1]);
  }

  lemma BlockKeepsFather(fs: Fs, ino: nat, e: Entry)
    requires Inv(fs) && LiveDir(fs, ino) && CanAddEntry(fs, ino, e)
    ensures List(fs, ino) != [] && SameFather(fs, AddEntry(fs, ino, e), List(fs, ino)[0])
    ensures IsInode(AddEntry(fs, ino, e), ino) && List(fs, ino) <= List(AddEntry(fs, ino, e), ino)
  {
    hide Inv, B.Chain, B.Parse, AllBlocks, Direct, FirstTaker, Takes, B.AddEntry, EntryOk, AddEntry, DirectOnly, Owned,
         TreesOk, DirBlockGood, D.UniqueNames, D.Listing, CanAddBlock, Father;
    assert EntryOk(e);
    hide CanAddEntry;
    DirFacts(fs, ino);
    EntriesBegin(fs, ino);
    var blocks, fs' := List(fs, ino), AddEntry(fs, ino, e);
    var k := FirstTaker(fs, AllBlocks(fs, ino), e, 0);
    if k < |blocks| {
      AddEntryInBlock(fs, ino, e, k);
      OwnedParts(fs, blocks, k);
      assert DirBlockGood(fs, blocks[k], ino);
      if k == 0 {
        TakerKeepsFather(fs, fs', blocks[0], ino, e);
      }
    } else {
      NewBlockKeepsFather(fs, ino, e);
    }
  }

  lemma NewBlockKeepsFather(fs: Fs, ino: nat, e: Entry)
    requires Inv(fs) && LiveDir(fs, ino) && CanAddEntry(fs, ino, e) && List(fs, ino) != []
    requires FirstTaker(fs, AllBlocks(fs, ino), e, 0) == |AllBlocks(fs, ino)|
    requires DirBlockOk(fs, List(fs, ino)[0]) && |RecsOf(fs, List(fs, ino)[0])| >= 2
    ensures SameFather(fs, AddEntry(fs, ino, e), List(fs, ino)[0])
    ensures IsInode(AddEntry(fs, ino, e), ino) && List(fs, ino) <= List(AddEntry(fs, ino, e), ino)
  {
    assert EntryOk(e);
    hide Inv, B.Chain, B.Parse, AllBlocks, Direct, FirstTaker, AddEntry, CanAddEntry, EntryOk, Owned, DirectOnly,
         FirstEntry, Changes, Ok, A.MetaMarked;
    var n, father := NewBlockReached(fs, ino, e);
  }

  lemma FatherStays(fs: Fs, ino: nat, e: Entry)
    requires Inv(fs) && LiveDir(fs, ino) && CanAddEntry(fs, ino, e) && Updated(fs, AddEntry(fs, ino, e), ino)
    ensures var fs' := AddEntry(fs, ino, e);
            && DirBlocksOk(fs, AllBlocks(fs, ino)) && DirBlocksOk(fs', AllBlocks(fs', ino))
            && Find(fs', ino, DOT_DOT) == Find(fs, ino, DOT_DOT)
  {
    hide Inv, B.Chain, B.Parse, AllBlocks, Direct, AddEntry, CanAddEntry, Find, LiveDir, Changes;
    BlockKeepsFather(fs, ino, e);
    DotsFound(fs, ino);
    DotsFound(AddEntry(fs, ino, e), ino);
  }

  /** `add_entry_to_inode` of a name that the lookup does not find inserts into the map. */
  lemma AddEntryInserts(fs: Fs, ino: nat, e: Entry)
    requires Inv(fs) && LiveDir(fs, ino) && Live(fs, e.inode) && DirBlocksOk(fs, AllBlocks(fs, ino))
    requires EntryFits(fs, ino, e) && Find(fs, ino, e.name) == None
    ensures CanAddEntry(fs, ino, e)
    ensures var fs' := AddEntry(fs, ino, e);
            && Updated(fs, fs', ino) && DirBlocksOk(fs', AllBlocks(fs', ino))
            && MapOf(fs', ino) == MapOf(fs, ino)[e.name := e.inode]
            && Find(fs', ino, DOT_DOT) == Find(fs, ino, DOT_DOT)
  {
    RoomIsEnough(fs, ino, e);
    hide Inv, EntryFits, LiveDir, Live, B.Chain, B.Parse, D.Listing, D.HasName, D.UniqueNames, AllBlocks, D.AsMap, Find,
         AddEntry, CanAddEntry, TreesOk, Direct, DirBlocksOk, Updated;
    FindInMap(fs, ino, e.name);
    DirReadable(fs, ino);
    D.MapOfList(D.Ordinary(fs, ino), e.name);
    var q := AddEntryKeeps(fs, ino, e);
    ListingAdded(fs, AddEntry(fs, ino, e), ino, q, e);
    FatherStays(fs, ino, e);
  }

  /** The directory lists the very entry that was added, with its type. */
  lemma AddedIsListed(fs: Fs, ino: nat, e: Entry)
    requires Inv(fs) && LiveDir(fs, ino) && Live(fs, e.inode) && DirBlocksOk(fs, AllBlocks(fs, ino))
    requires EntryFits(fs, ino, e) && Find(fs, ino, e.name) == None
    ensures CanAddEntry(fs, ino, e)
    ensures var fs' := AddEntry(fs, ino, e);
            IsInode(fs', ino) && DirBlocksOk(fs', AllBlocks(fs', ino)) && e in D.Ordinary(fs', ino)
  {
    RoomIsEnough(fs, ino, e);
    hide Inv, EntryFits, LiveDir, Live, B.Chain, B.Parse, D.Listing, D.HasName, D.UniqueNames, AllBlocks, D.AsMap, Find,
         AddEntry, CanAddEntry, TreesOk, Direct, DirBlocksOk, Changes;
    FindInMap(fs, ino, e.name);
    DirReadable(fs, ino);
    D.MapOfList(D.Ordinary(fs, ino), e.name);
    var q := AddEntryKeeps(fs, ino, e);
    var fs' := AddEntry(fs, ino, e);
    DirReadable(fs', ino);
    assert D.Ordinary(fs', ino)[q] == e;
  }

  // ----- removal -----

  lemma EntriesRemoved(fs: Fs, recs: seq<Rec>, k: nat)
    requires EntriesLive(fs, recs) && 1 <= k < |recs|
    ensures EntriesLive(fs, Removed(recs, k))
  {
    var recs' := Removed(recs, k);
    forall j | 0 <= j < |recs'| ensures Live(fs, recs'[j].inode) {
      if j < k {
        assert ToEntry(recs'[j]) == ToEntry(recs[j]);
      }
    }
  }

  lemma FreedRecords(fs: Fs, fs': Fs, b: nat, target: nat) returns (k: nat)
    requires DirBlockOk(fs, b) && NotFirst(RecsOf(fs, b), target) && FindInode(RecsOf(fs, b), target) < |RecsOf(fs, b)|
    requires fs' == PutData(fs, b, B.FreeEntry(fs.data[b], target).1)
    ensures DirBlockOk(fs', b) && 1 <= k < |RecsOf(fs, b)| && RecsOf(fs, b)[k].inode == target
    ensures !IsDot(RecsOf(fs, b)[k].name) && RecsOf(fs', b) == Removed(RecsOf(fs, b), k)
  {
    k := FindInode(RecsOf(fs, b), target);
    hide B.Chain, B.Parse, B.FreeEntry;
    B.FreeEntryRecords(fs.data[b], target);
  }

  lemma NotDotIsLater(recs: seq<Rec>, self: nat, k: nat)
    requires Shaped(recs, self) && k < |recs| && !IsDot(recs[k].name)
    ensures k >= 2
  {
  }

  /** The block that loses an entry stays well formed. */
  lemma BlockFrees(fs: Fs, fs': Fs, b: nat, ino: nat, target: nat) returns (p: nat)
    requires DirBlockGood(fs, b, ino)
    requires NotFirst(RecsOf(fs, b), target) && FindInode(RecsOf(fs, b), target) < |RecsOf(fs, b)|
    requires fs' == PutData(fs, b, B.FreeEntry(fs.data[b], target).1)
    ensures DirBlockGood(fs', b, ino)
    ensures p < |D.NonDot(RecsOf(fs, b))| && D.NonDot(RecsOf(fs, b))[p].inode == target
    ensures D.NonDot(RecsOf(fs', b)) == D.TakeOut(D.NonDot(RecsOf(fs, b)), p)
  {
    hide DirBlockOk, RecsOf, D.NonDot, Removed, Shaped, B.FreeEntry, EntriesLive, Live;
    var k := FreedRecords(fs, fs', b, target);
    NotDotIsLater(RecsOf(fs, b), ino, k);
    RemovedShaped(RecsOf(fs, b), ino, k);
    EntriesRemoved(fs, RecsOf(fs, b), k);
    EntriesSame(fs, fs', RecsOf(fs', b));
    p := D.NonDotRemoved(RecsOf(fs, b), k);
  }

  lemma {:induction false} ListingShrunk(fs: Fs, fs': Fs, blocks: seq<nat>, k: nat, i: nat, p: nat) returns (q: nat)
    requires DirBlocksOk(fs, blocks) && DirBlocksOk(fs', blocks) && i <= k < |blocks|
    requires forall j :: 0 <= j < |blocks| && j != k ==> fs'.data[blocks[j]] == fs.data[blocks[j]]
    requires p < |D.NonDot(RecsOf(fs, blocks[k]))|
    requires D.NonDot(RecsOf(fs', blocks[k])) == D.TakeOut(D.NonDot(RecsOf(fs, blocks[k])), p)
    ensures q < |D.Listing(fs, blocks, i)| && D.Listing(fs, blocks, i)[q] == D.NonDot(RecsOf(fs, blocks[k]))[p]
    ensures D.Listing(fs', blocks, i) == D.TakeOut(D.Listing(fs, blocks, i), q)
    decreases k - i
  {
    hide D.NonDot, B.Chain, B.Parse;
    var here, here' := D.NonDot(RecsOf(fs, blocks[i])), D.NonDot(RecsOf(fs', blocks[i]));
    var rest, rest' := D.Listing(fs, blocks, i + 1), D.Listing(fs', blocks, i + 1);
    if i < k {
      var r := ListingShrunk(fs, fs', blocks, k, i + 1, p);
      q := |here| + r;
      assert here + (rest[..r] + rest[r + 1..]) == (here + rest)[..q] + (here + rest)[q + 1..];
    } else {
      ListingSame(fs, fs', blocks, i + 1);
      q := p;
      assert here[..p] + here[p + 1..] + rest == (here + rest)[..q] + (here + rest)[q + 1..];
    }
  }

  lemma UniqueTakeOut(s: seq<Entry>, p: nat)
    requires p < |s| && D.UniqueNames(s)
    ensures D.UniqueNames(D.TakeOut(s, p))
  {
    var s' := D.TakeOut(s, p);
    forall k | 0 <= k < |s'| ensures s'[k] == if k < p then s[k] else s[k + 1] {
    }
  }

  lemma FreeFromBlockKeeps(fs: Fs, ino: nat, k: nat, target: nat) returns (q: nat)
    requires Inv(fs) && LiveDir(fs, ino) && DirBlocksOk(fs, List(fs, ino)) && k < |List(fs, ino)|
    requires NotFirst(RecsOf(fs, List(fs, ino)[k]), target)
    requires FindInode(RecsOf(fs, List(fs, ino)[k]), target) < |RecsOf(fs, List(fs, ino)[k])|
    ensures var fs' := PutData(fs, List(fs, ino)[k], B.FreeEntry(fs.data[List(fs, ino)[k]], target).1);
            && Inv(fs') && LiveDir(fs', ino) && List(fs', ino) == List(fs, ino) && DirBlocksOk(fs', List(fs, ino))
            && Changes(fs, fs', ino)
            && q < |D.Listing(fs, List(fs, ino), 0)| && D.Listing(fs, List(fs, ino), 0)[q].inode == target
            && D.Listing(fs', List(fs, ino), 0) == D.TakeOut(D.Listing(fs, List(fs, ino), 0), q)
  {
    hide Inv, DirGood, DirBlockGood, B.Chain, B.Parse, B.FreeEntry, D.NonDot, D.Listing, D.UniqueNames, Changes, Owned,
         DirectOnly, TreesOk;
    DirFacts(fs, ino);
    var blocks := List(fs, ino);
    var fs' := PutData(fs, blocks[k], B.FreeEntry(fs.data[blocks[k]], target).1);
    DirParts(fs, ino, blocks);
    OwnedParts(fs, blocks, k);
    var p := BlockFrees(fs, fs', blocks[k], ino, target);
    OtherBlocks(fs, fs', ino, blocks, k);
    q := ListingShrunk(fs, fs', blocks, k, 0, p);
    UniqueTakeOut(D.Listing(fs, blocks, 0), q);
    RewriteKeeps(fs, fs', ino, k);
  }

  /** `free_entry_to_inode` removes one name of the inode from the map and nothing else. */
  lemma FreeEntryRemoves(fs: Fs, ino: nat, target: nat) returns (name: Name)
    requires Inv(fs) && LiveDir(fs, ino) && CanFreeEntry(fs, ino, target)
    ensures var fs' := FreeEntry(fs, ino, target);
            && Updated(fs, fs', ino) && DirBlocksOk(fs', AllBlocks(fs', ino))
            && name in MapOf(fs, ino) && MapOf(fs, ino)[name] == target
            && MapOf(fs', ino) == MapOf(fs, ino) - {name}
  {
    var blocks := AllBlocks(fs, ino);
    var k := FirstHolder(fs, blocks, target, 0);
    assert NotFirst(RecsOf(fs, blocks[k]), target);
    assert FindInode(RecsOf(fs, blocks[k]), target) < |RecsOf(fs, blocks[k])|;
    hide Inv, LiveDir, Live, B.Chain, B.Parse, D.Listing, D.UniqueNames, AllBlocks, Changes, D.AsMap, TreesOk, Direct,
         DirBlocksOk, CanFreeEntry, NotFirst, FirstHolder, B.FreeEntry;
    DirReadable(fs, ino);
    var q := FreeFromBlockKeeps(fs, ino, k, target);
    var s := D.Ordinary(fs, ino);
    name := s[q].name;
    DirReadable(FreeEntry(fs, ino, target), ino);
    D.MapTakeOut(s, q);
    UniqueIsInMap(s, q);
  }

  lemma UniqueIsInMap(s: seq<Entry>, q: nat)
    requires q < |s| && D.UniqueNames(s)
    ensures s[q].name in D.AsMap(s) && D.AsMap(s)[s[q].name] == s[q].inode
  {
    D.MapOfList(s, s[q].name);
    var k := FindName(s, s[q].name);
    assert D.HasName(s, s[q].name);
    assert k == q;
  }

  // ----- when a removal is possible -----

  lemma {:induction false} NonDotFrom(recs: seq<Rec>, p: nat) returns (k: nat)
    requires p < |D.NonDot(recs)|
    ensures k < |recs| && recs[k].inode == D.NonDot(recs)[p].inode
  {
    var first := if IsDot(recs[0].name) then [] else [ToEntry(recs[0])];
    if p < |first| {
      k := 0;
    } else {
      var j := NonDotFrom(recs[1..], p - |first|);
      k := j + 1;
    }
  }

  lemma {:induction false} ListingFrom(fs: Fs, blocks: seq<nat>, i: nat, q: nat) returns (k: nat, p: nat)
    requires DirBlocksOk(fs, blocks) && i <= |blocks| && q < |D.Listing(fs, blocks, i)|
    ensures i <= k < |blocks| && p < |D.NonDot(RecsOf(fs, blocks[k]))|
    ensures D.NonDot(RecsOf(fs, blocks[k]))[p] == D.Listing(fs, blocks, i)[q]
    decreases |blocks| - i
  {
    hide D.NonDot, B.Chain, B.Parse;
    var here := D.NonDot(RecsOf(fs, blocks[i]));
    if q < |here| {
      k, p := i, q;
    } else {
      k, p := ListingFrom(fs, blocks, i + 1, q - |here|);
    }
  }

  lemma {:induction false} InMapFrom(s: seq<Entry>, name: Name) returns (q: nat)
    requires name in D.AsMap(s)
    ensures q < |s| && s[q].name == name && s[q].inode == D.AsMap(s)[name]
  {
    if s[0].name == name {
      q := 0;
    } else {
      var r := InMapFrom(s[1..], name);
      q := r + 1;
    }
  }

  lemma NamedInBlock(fs: Fs, ino: nat, name: Name) returns (k: nat)
    requires Inv(fs) && LiveDir(fs, ino) && DirBlocksOk(fs, AllBlocks(fs, ino)) && name in MapOf(fs, ino)
    ensures k < |AllBlocks(fs, ino)|
    ensures FindInode(RecsOf(fs, AllBlocks(fs, ino)[k]), MapOf(fs, ino)[name]) < |RecsOf(fs, AllBlocks(fs, ino)[k])|
  {
    hide Inv, D.AsMap, D.Listing, D.NonDot, AllBlocks, B.Chain, B.Parse;
    var q := InMapFrom(D.Ordinary(fs, ino), name);
    var p;
    k, p := ListingFrom(fs, AllBlocks(fs, ino), 0, q);
    var j := NonDotFrom(RecsOf(fs, AllBlocks(fs, ino)[k]), p);
  }

  lemma NotTheDots(recs: seq<Rec>, self: nat, target: nat)
    requires Shaped(recs, self) && target != self && target != recs[1].inode
    ensures NotFirst(recs, target)
  {
  }

  /** An inode with a name in the directory, other than the directory itself and its father, can be removed. */
  lemma FreeEntryPossible(fs: Fs, ino: nat, name: Name)
    requires Inv(fs) && LiveDir(fs, ino) && DirBlocksOk(fs, AllBlocks(fs, ino)) && name in MapOf(fs, ino)
    requires MapOf(fs, ino)[name] != ino
    requires forall k :: 0 <= k < |AllBlocks(fs, ino)| ==>
               |RecsOf(fs, AllBlocks(fs, ino)[k])| > 1
                   && RecsOf(fs, AllBlocks(fs, ino)[k])[1].inode != MapOf(fs, ino)[name]
    ensures CanFreeEntry(fs, ino, MapOf(fs, ino)[name])
  {
    var target := MapOf(fs, ino)[name];
    var k := NamedInBlock(fs, ino, name);
    DirReadable(fs, ino);
    DirFacts(fs, ino);
    hide Inv, MapOf, B.Chain, B.Parse, D.UniqueNames, TreesOk, Direct, DirectOnly, Owned, D.Listing;
    forall j | 0 <= j < |AllBlocks(fs, ino)| ensures NotFirst(RecsOf(fs, AllBlocks(fs, ino)[j]), target) {
      assert DirBlockGood(fs, List(fs, ino)[j], ino);
      NotTheDots(RecsOf(fs, AllBlocks(fs, ino)[j]), ino, target);
    }
  }
}
