/** Directories: what adding, removing and looking up entries means across a directory's blocks. */
module Directories {
  import opened Bytes
  import opened Geometry
  import opened Inodes
  import opened DirRecords
  import opened Fs
  import A = Allocation
  import B = DirBlock

  lemma {:induction false} FatherBound(recs: seq<Rec>)
    requires RecsOk(recs) && Father(recs).Some?
    ensures Father(recs).value < 0x1_0000_0000
  {
    if recs[0].name != DOT_DOT {
      FatherBound(recs[1..]);
    }
  }

  lemma BlockRecsOk(fs: Fs, b: nat)
    requires DirBlockOk(fs, b)
    ensures RecsOk(RecsOf(fs, b)) && Total(RecsOf(fs, b)) == BLOCK_SIZE
  {
    B.ParseTiles(fs.data[b], 0);
    B.TilesTotal(fs.data[b], 0, RecsOf(fs, b), BLOCK_SIZE);
  }

  /** The add to a newly initialised block never fails for a name that passed the length assertion. */
  lemma FreshBlockTakes(ino: nat, father: nat, e: Entry)
    requires ino < 0x1_0000_0000 && father < 0x1_0000_0000 && EntryOk(e)
    ensures B.Chain(B.InitBlock(ino, father), 0)
    ensures B.AddEntry(B.InitBlock(ino, father), e) == (true, FirstEntry(ino, father, e))
    ensures B.Chain(FirstEntry(ino, father, e), 0)
    ensures B.Parse(FirstEntry(ino, father, e), 0) == Inserted(InitRecs(ino, father), 1, e)
  {
    hide B.Chain, B.Parse, B.AddEntry, B.InitBlock, Inserted, Need;
    B.InitBlockRecords(ino, father);
    InitTakesAnyName(ino, father, e);
    B.AddEntryRecords(B.InitBlock(ino, father), e);
  }

  /** Growing an inode by one block changes its own pointer list, marks the block, and nothing else. */
  lemma GrowthFrame(fs: Fs, ino: nat)
    requires Ok(fs) && A.MetaMarked(fs) && CanAddBlock(fs, ino)
    ensures var (n, grown) := AddBlock(fs, ino);
            && n in fs.data && grown.data == fs.data && grown.g == fs.g && |grown.inodes| == |fs.inodes|
            && !fs.blockBits[n - 1] && 1 <= n <= |fs.blockBits|
            && InodeOk(GetInode(grown, ino)) && Ok(grown) && A.MetaMarked(grown)
            && (GetInode(fs, ino).block[0] != 0 ==> GetInode(grown, ino).block[0] == GetInode(fs, ino).block[0])
  {
    A.FreeFromMeans(fs, Hint(fs, ino));
    A.FreeFromBounds(fs, Hint(fs, ino), 0);
    var n := FreeFrom(fs, Hint(fs, ino))[0];
    var i := GetInode(fs, ino);
    FirstZero(i);
    A.MarkKeeps(fs, [n]);
  }

  lemma NewBlockFacts(fs: Fs, ino: nat, e: Entry)
    requires Ok(fs) && A.MetaMarked(fs) && CanAddEntry(fs, ino, e)
    requires FirstTaker(fs, AllBlocks(fs, ino), e, 0) == |AllBlocks(fs, ino)|
    ensures EntryOk(e) && IsInode(fs, ino) && |GetInode(fs, ino).block| > 0
    ensures CanAddBlock(fs, ino) && DirBlockOk(fs, GetInode(fs, ino).block[0])
    ensures Father(RecsOf(fs, GetInode(fs, ino).block[0])).Some?
    ensures var (n, grown) := AddBlock(fs, ino);
            var father := Father(RecsOf(fs, GetInode(fs, ino).block[0])).value;
            && Ok(grown) && n in grown.data && IsInode(grown, ino) && grown.data == fs.data
            && GetInode(grown, ino).block[0] == GetInode(fs, ino).block[0]
            && B.Chain(B.InitBlock(ino, father), 0)
            && B.AddEntry(B.InitBlock(ino, father), e) == (true, FirstEntry(ino, father, e))
            && AddEntry(fs, ino, e) == PutData(grown, n, FirstEntry(ino, father, e))
  {
    var b := GetInode(fs, ino).block[0];
    GrowthFrame(fs, ino);
    BlockRecsOk(fs, b);
    FatherBound(RecsOf(fs, b));
    FreshBlockTakes(ino, Father(RecsOf(fs, b)).value, e);
    hide B.Chain, B.Parse, AddBlock;
  }

  // ----- a directory as a list of ordinary entries -----

  function NonDot(recs: seq<Rec>): seq<Entry> {
    if recs == [] then []
    else (if IsDot(recs[0].name) then [] else [ToEntry(recs[0])]) + NonDot(recs[1..])
  }

  /** The entries of the blocks from the `i`-th on, without "." and "..". */
  function Listing(fs: Fs, blocks: seq<nat>, i: nat): seq<Entry>
    requires DirBlocksOk(fs, blocks) && i <= |blocks|
    decreases |blocks| - i
  {
    if i == |blocks| then [] else NonDot(RecsOf(fs, blocks[i])) + Listing(fs, blocks, i + 1)
  }

  function Ordinary(fs: Fs, ino: nat): seq<Entry>
    requires IsInode(fs, ino) && DirBlocksOk(fs, AllBlocks(fs, ino))
  {
    Listing(fs, AllBlocks(fs, ino), 0)
  }

  /** The finite map a list of entries stands for: a lookup finds the first entry of a name. */
  function AsMap(entries: seq<Entry>): map<Name, nat> {
    if entries == [] then map[] else AsMap(entries[1..])[entries[0].name := entries[0].inode]
  }

  predicate HasName(entries: seq<Entry>, name: Name) {
    exists k :: 0 <= k < |entries| && entries[k].name == name
  }

  predicate UniqueNames(entries: seq<Entry>) {
    forall k, l :: 0 <= k < l < |entries| ==> entries[k].name != entries[l].name
  }

  lemma {:induction false} NonDotConcat(s: seq<Rec>, t: seq<Rec>)
    ensures NonDot(s + t) == NonDot(s) + NonDot(t)
  {
    if s == [] {
      assert s + t == t;
    } else {
      assert (s + t)[1..] == s[1..] + t;
      NonDotConcat(s[1..], t);
    }
  }

  lemma NonDotOne(r: Rec)
    ensures NonDot([r]) == if IsDot(r.name) then [] else [ToEntry(r)]
  {
    assert [r][1..] == [];
    assert NonDot([]) == [];
  }

  function PutIn<T>(s: seq<T>, p: nat, x: T): seq<T>
    requires p <= |s|
  {
    s[..p] + [x] + s[p..]
  }

  function TakeOut<T>(s: seq<T>, p: nat): seq<T>
    requires p < |s|
  {
    s[..p] + s[p + 1..]
  }

  lemma NonDotThree(before: seq<Rec>, r: Rec, after: seq<Rec>)
    ensures NonDot(before + [r] + after) == NonDot(before) + NonDot([r]) + NonDot(after)
  {
    hide NonDot;
    NonDotConcat(before + [r], after);
    NonDotConcat(before, [r]);
  }

  lemma TakenOut(s: seq<Entry>, e: Entry, t: seq<Entry>)
    ensures TakeOut(s + ([e] + t), |s|) == s + t && (s + ([e] + t))[|s|] == e
  {
  }

  lemma PutBetween(s: seq<Entry>, e: Entry, t: seq<Entry>)
    ensures PutIn(s + t, |s|, e) == s + ([e] + t)
  {
  }

  lemma InsertedPieces(recs: seq<Rec>, k: nat, e: Entry)
    requires k < |recs| && Slack(recs[k]) >= 0
    ensures recs == recs[..k] + [recs[k]] + recs[k + 1..]
    ensures Inserted(recs, k, e)
            == recs[..k] + [Trimmed(recs[k])] + ([Rec(e.inode, Slack(recs[k]), e.fileType, e.name)] + recs[k + 1..])
  {
  }

  lemma NonDotInserted(recs: seq<Rec>, k: nat, e: Entry) returns (p: nat)
    requires k < |recs| && Slack(recs[k]) >= 0 && !IsDot(e.name)
    ensures p <= |NonDot(recs)| && NonDot(Inserted(recs, k, e)) == PutIn(NonDot(recs), p, e)
  {
    hide NonDot, Inserted, IsDot, PutIn, Slack;
    var before, r, after := recs[..k], recs[k], recs[k + 1..];
    var added := Rec(e.inode, Slack(r), e.fileType, e.name);
    InsertedPieces(recs, k, e);
    NonDotThree(before, r, after);
    NonDotThree(before, Trimmed(r), [added] + after);
    NonDotConcat([added], after);
    NonDotOne(r);
    NonDotOne(Trimmed(r));
    NonDotOne(added);
    p := |NonDot(before) + NonDot([r])|;
    PutBetween(NonDot(before) + NonDot([r]), e, NonDot(after));
  }

  lemma RemovedPieces(recs: seq<Rec>, k: nat)
    requires 1 <= k < |recs|
    ensures recs == recs[..k - 1] + [recs[k - 1]] + ([recs[k]] + recs[k + 1..])
    ensures Removed(recs, k) == recs[..k - 1] + [Merged(recs[k - 1], recs[k])] + recs[k + 1..]
  {
  }

  lemma MergedEntry(r: Rec, s: Rec)
    ensures ToEntry(Merged(r, s)) == ToEntry(r) && Merged(r, s).name == r.name
  {
  }

  lemma NonDotRemoved(recs: seq<Rec>, k: nat) returns (p: nat)
    requires 1 <= k < |recs| && !IsDot(recs[k].name)
    ensures p < |NonDot(recs)| && NonDot(recs)[p] == ToEntry(recs[k])
    ensures NonDot(Removed(recs, k)) == TakeOut(NonDot(recs), p)
  {
    hide NonDot, Removed, Merged, IsDot, TakeOut;
    var before, r, s, after := recs[..k - 1], recs[k - 1], recs[k], recs[k + 1..];
    RemovedPieces(recs, k);
    MergedEntry(r, s);
    NonDotThree(before, r, [s] + after);
    NonDotThree(before, Merged(r, s), after);
    NonDotConcat([s], after);
    NonDotOne(r);
    NonDotOne(s);
    NonDotOne(Merged(r, s));
    p := |NonDot(before) + NonDot([r])|;
    TakenOut(NonDot(before) + NonDot([r]), ToEntry(s), NonDot(after));
  }

  // ----- the list that the lookup searches -----

  function WithoutDots(entries: seq<Entry>): seq<Entry> {
    if entries == [] then []
    else (if IsDot(entries[0].name) then [] else [entries[0]]) + WithoutDots(entries[1..])
  }

  lemma {:induction false} WithoutDotsConcat(s: seq<Entry>, t: seq<Entry>)
    ensures WithoutDots(s + t) == WithoutDots(s) + WithoutDots(t)
  {
    if s == [] {
      assert s + t == t;
    } else {
      assert (s + t)[1..] == s[1..] + t;
      WithoutDotsConcat(s[1..], t);
    }
  }

  lemma {:induction false} CollectWithoutDots(acc: seq<Entry>, recs: seq<Rec>)
    ensures WithoutDots(Collect(acc, recs)) == WithoutDots(acc) + NonDot(recs)
    decreases |recs|
  {
    if recs != [] {
      var e := ToEntry(recs[0]);
      if |acc| > 2 && IsDot(e.name) {
        CollectWithoutDots(acc, recs[1..]);
      } else {
        CollectWithoutDots(acc + [e], recs[1..]);
        hide WithoutDots;
        WithoutDotsConcat(acc, [e]);
      }
    }
  }

  lemma {:induction false} CollectBlocksWithoutDots(fs: Fs, acc: seq<Entry>, blocks: seq<nat>, i: nat)
    requires DirBlocksOk(fs, blocks) && i <= |blocks|
    ensures WithoutDots(CollectBlocks(fs, acc, blocks, i)) == WithoutDots(acc) + Listing(fs, blocks, i)
    decreases |blocks| - i
  {
    if i < |blocks| {
      hide WithoutDots, NonDot, Collect;
      CollectWithoutDots(acc, RecsOf(fs, blocks[i]));
      CollectBlocksWithoutDots(fs, Collect(acc, RecsOf(fs, blocks[i])), blocks, i + 1);
    }
  }

  lemma {:induction false} FindWithoutDots(entries: seq<Entry>, name: Name)
    requires !IsDot(name)
    ensures HasName(entries, name) <==> HasName(WithoutDots(entries), name)
    ensures var k, l := FindName(entries, name), FindName(WithoutDots(entries), name);
            (k < |entries| <==> l < |WithoutDots(entries)|) &&
            (k < |entries| ==> entries[k] == WithoutDots(entries)[l])
  {
    if entries != [] {
      var e, rest, kept := entries[0], entries[1..], WithoutDots(entries[1..]);
      FindWithoutDots(rest, name);
      assert entries == [e] + rest;
      assert WithoutDots(entries) == if IsDot(e.name) then kept else [e] + kept;
      hide WithoutDots, HasName;
      HasNameCons(e, rest, name);
      HasNameCons(e, kept, name);
      assert ([e] + kept)[1..] == kept;
    }
  }

  lemma HasNameCons(e: Entry, rest: seq<Entry>, name: Name)
    ensures HasName([e] + rest, name) <==> e.name == name || HasName(rest, name)
  {
    var s := [e] + rest;
    if HasName(rest, name) {
      var k :| 0 <= k < |rest| && rest[k].name == name;
      assert s[k + 1].name == name;
    }
    if e.name == name {
      assert s[0].name == name;
    }
  }

  lemma {:induction false} MapOfList(entries: seq<Entry>, name: Name)
    ensures name in AsMap(entries) <==> HasName(entries, name)
    ensures var k := FindName(entries, name);
            (k < |entries| <==> HasName(entries, name)) && (k < |entries| ==> AsMap(entries)[name] == entries[k].inode)
  {
    if entries != [] {
      MapOfList(entries[1..], name);
      HasNameCons(entries[0], entries[1..], name);
      assert entries == [entries[0]] + entries[1..];
    }
  }

  /** `find_dir_from_inode` looks the name up in the directory's map. */
  lemma FindIsLookup(fs: Fs, ino: nat, name: Name)
    requires IsInode(fs, ino) && DirBlocksOk(fs, AllBlocks(fs, ino)) && !IsDot(name)
    ensures var m := AsMap(Ordinary(fs, ino));
            Find(fs, ino, name) == if name in m then Some(m[name]) else None
  {
    var blocks := AllBlocks(fs, ino);
    CollectBlocksWithoutDots(fs, [], blocks, 0);
    assert WithoutDots([]) == [];
    assert WithoutDots(AllEntries(fs, ino)) == Ordinary(fs, ino);
    FindWithoutDots(AllEntries(fs, ino), name);
    MapOfList(Ordinary(fs, ino), name);
    hide AsMap, WithoutDots, HasName, Listing, CollectBlocks;
  }

  // ----- insertion and removal in the map -----

  lemma {:induction false} MapPutIn(s: seq<Entry>, p: nat, e: Entry)
    requires p <= |s| && !HasName(s, e.name)
    ensures AsMap(PutIn(s, p, e)) == AsMap(s)[e.name := e.inode]
    decreases p
  {
    var s' := PutIn(s, p, e);
    if p == 0 {
      assert s' == [e] + s && s'[1..] == s;
    } else {
      assert s == [s[0]] + s[1..];
      HasNameCons(s[0], s[1..], e.name);
      MapPutIn(s[1..], p - 1, e);
      assert s'[1..] == PutIn(s[1..], p - 1, e) && s'[0] == s[0];
    }
  }

  lemma {:induction false} MapTakeOut(s: seq<Entry>, p: nat)
    requires p < |s| && UniqueNames(s)
    ensures AsMap(TakeOut(s, p)) == AsMap(s) - {s[p].name}
    decreases p
  {
    var s' := TakeOut(s, p);
    if p == 0 {
      assert s' == s[1..];
      assert !HasName(s[1..], s[0].name);
      MapOfList(s[1..], s[0].name);
    } else {
      MapTakeOut(s[1..], p - 1);
      assert s'[1..] == TakeOut(s[1..], p - 1) && s'[0] == s[0];
    }
  }

  lemma UniquePutIn(s: seq<Entry>, p: nat, e: Entry)
    requires p <= |s| && UniqueNames(s) && !HasName(s, e.name)
    ensures UniqueNames(PutIn(s, p, e))
  {
    var s' := PutIn(s, p, e);
    forall k | 0 <= k < |s'| ensures s'[k] == if k < p then s[k] else if k == p then e else s[k - 1] {
    }
  }
}
