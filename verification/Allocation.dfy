/** What the allocators return: which blocks, in which order, and what happens to the free ones. */
module Allocation {
  import opened Bytes
  import opened Geometry
  import opened Fs
  import BitMap

  function GroupOf(g: Geo, b: nat): nat
    requires b >= 1 && g.blocksPerGroup > 0
  {
    (b - 1) / g.blocksPerGroup
  }

  /** How many groups after `i` a cyclic scan reaches group `j`. */
  function Distance(g: Geo, i: nat, j: nat): nat
    requires i < g.groups && j < g.groups
  {
    if j >= i then j - i else j + g.groups - i
  }

  /** The position of a block in a cyclic scan that starts at group `i`. */
  function Rank(g: Geo, i: nat, b: nat): nat
    requires g.Ok() && i < g.groups && 1 <= b <= g.Blocks()
  {
    DivBound(b - 1, g.blocksPerGroup, g.groups);
    Distance(g, i, GroupOf(g, b)) * g.blocksPerGroup + (b - 1) % g.blocksPerGroup
  }

  predicate IsFree(g: Geo, bits: seq<bool>, b: nat) {
    1 <= b <= g.Blocks() <= |bits| && !bits[b - 1]
  }

  ghost predicate Listing(bits: seq<bool>, lo: nat, hi: nat, s: seq<nat>) {
    && (forall k :: 0 <= k < |s| ==> lo < s[k] <= hi && s[k] <= |bits| && !bits[s[k] - 1])
    && (forall k, l :: 0 <= k < l < |s| ==> s[k] < s[l])
  }

  lemma {:induction false} FreeInMeans(bits: seq<bool>, lo: nat, hi: nat)
    requires lo <= hi <= |bits|
    ensures Listing(bits, lo, hi, FreeIn(bits, lo, hi))
    decreases hi - lo
  {
    if lo < hi {
      FreeInMeans(bits, lo + 1, hi);
      ListingCons(bits, lo, hi, FreeIn(bits, lo + 1, hi));
    }
  }

  lemma ListingCons(bits: seq<bool>, lo: nat, hi: nat, rest: seq<nat>)
    requires lo < hi <= |bits| && Listing(bits, lo + 1, hi, rest)
    ensures Listing(bits, lo, hi, rest)
    ensures !bits[lo] ==> Listing(bits, lo, hi, [lo + 1] + rest)
  {
    var s := [lo + 1] + rest;
    forall k | 1 <= k < |s| ensures s[k] == rest[k - 1] {
    }
  }

  lemma {:induction false} FreeInComplete(bits: seq<bool>, lo: nat, hi: nat, b: nat)
    requires lo < b <= hi <= |bits| && !bits[b - 1]
    ensures b in FreeIn(bits, lo, hi)
    decreases hi - lo
  {
    if lo + 1 < b {
      FreeInComplete(bits, lo + 1, hi, b);
    }
  }

  lemma GroupFreeMembers(g: Geo, bits: seq<bool>, i: nat, b: nat)
    requires g.Ok() && i < g.groups && |bits| == g.Blocks()
    ensures b in GroupFree(g, bits, i) <==> IsFree(g, bits, b) && GroupOf(g, b) == i
  {
    var lo := BlockBase(g, i);
    GroupWithin(g, i);
    FreeInMeans(bits, lo, lo + g.blocksPerGroup);
    InGroup(g, i, b);
    var s := GroupFree(g, bits, i);
    if b in s {
      var k :| 0 <= k < |s| && s[k] == b;
    } else if IsFree(g, bits, b) && GroupOf(g, b) == i {
      FreeInComplete(bits, lo, lo + g.blocksPerGroup, b);
    }
  }

  lemma InGroup(g: Geo, i: nat, b: nat)
    requires g.Ok() && i < g.groups
    ensures GroupIndex(g, i) <= b < GroupIndex(g, i) + g.blocksPerGroup
            <==> 1 <= b <= g.Blocks() && GroupOf(g, b) == i
    ensures GroupIndex(g, i) <= b < GroupIndex(g, i) + g.blocksPerGroup
        ==> (b - 1) % g.blocksPerGroup == b - GroupIndex(g, i)
  {
    GroupWithin(g, i);
    if GroupIndex(g, i) <= b < GroupIndex(g, i) + g.blocksPerGroup {
      DivMod(i, g.blocksPerGroup, b - GroupIndex(g, i));
    }
    if 1 <= b <= g.Blocks() {
      DivBound(b - 1, g.blocksPerGroup, g.groups);
    }
  }

  lemma DistanceStep(g: Geo, i: nat, j: nat)
    requires i < g.groups && j < g.groups
    ensures var next := Next(g, i);
            && next < g.groups
            && (j != i ==> Distance(g, next, j) == Distance(g, i, j) - 1)
            && (j == i ==> Distance(g, i, j) == 0 && Distance(g, next, j) == g.groups - 1)
  {
  }

  /** A scan of `n` groups finds exactly the free blocks of the groups less than `n` steps ahead. */
  lemma {:induction false} ScanFreeMembers(g: Geo, bits: seq<bool>, i: nat, n: nat, b: nat)
    requires g.Ok() && i < g.groups && |bits| == g.Blocks() && n <= g.groups
    ensures b in ScanFree(g, bits, i, n)
            <==> IsFree(g, bits, b) && GroupOf(g, b) < g.groups && Distance(g, i, GroupOf(g, b)) < n
    decreases n
  {
    if n > 0 {
      hide GroupFree, IsFree;
      DistanceStep(g, i, i);
      ScanFreeMembers(g, bits, Next(g, i), n - 1, b);
      GroupFreeMembers(g, bits, i, b);
      if IsFree(g, bits, b) {
        GroupInRange(g, bits, b);
        DistanceStep(g, i, GroupOf(g, b));
      }
    }
  }

  lemma GroupInRange(g: Geo, bits: seq<bool>, b: nat)
    requires g.Ok() && IsFree(g, bits, b)
    ensures 1 <= b <= g.Blocks() && GroupOf(g, b) < g.groups
  {
    DivBound(b - 1, g.blocksPerGroup, g.groups);
  }

  /** The scan goes through groups in cyclic order and upwards in each. */
  ghost predicate Ascending(g: Geo, i: nat, s: seq<nat>)
    requires g.Ok() && i < g.groups
  {
    && (forall k :: 0 <= k < |s| ==> 1 <= s[k] <= g.Blocks())
    && (forall k, l :: 0 <= k < l < |s| ==> Rank(g, i, s[k]) < Rank(g, i, s[l]))
  }

  lemma RankInGroup(g: Geo, i: nat, j: nat, b: nat)
    requires g.Ok() && i < g.groups && j < g.groups && GroupIndex(g, j) <= b < GroupIndex(g, j) + g.blocksPerGroup
    ensures 1 <= b <= g.Blocks() && Rank(g, i, b) == Distance(g, i, j) * g.blocksPerGroup + (b - GroupIndex(g, j))
  {
    InGroup(g, j, b);
  }

  lemma RankStep(g: Geo, i: nat, b: nat)
    requires g.Ok() && i < g.groups && 1 <= b <= g.Blocks() && GroupOf(g, b) != i
    ensures Next(g, i) < g.groups
    ensures Rank(g, i, b) == Rank(g, Next(g, i), b) + g.blocksPerGroup
  {
    DivBound(b - 1, g.blocksPerGroup, g.groups);
    var j := GroupOf(g, b);
    DistanceStep(g, i, j);
    assert Distance(g, i, j) * g.blocksPerGroup
        == (Distance(g, i, j) - 1) * g.blocksPerGroup + g.blocksPerGroup;
  }

  lemma {:induction false} ScanFreeAscends(g: Geo, bits: seq<bool>, i: nat, n: nat)
    requires g.Ok() && i < g.groups && |bits| == g.Blocks() && n < g.groups
    ensures Ascending(g, i, ScanFree(g, bits, i, n))
    decreases n
  {
    if n > 0 {
      var next := Next(g, i);
      DistanceStep(g, i, i);
      ScanFreeAscends(g, bits, next, n - 1);
      GroupFreeRanks(g, bits, i);
      RestRanks(g, bits, i, n);
      hide Rank, GroupFree, Distance;
    }
  }

  lemma GroupFreeRanks(g: Geo, bits: seq<bool>, i: nat)
    requires g.Ok() && i < g.groups && |bits| == g.Blocks()
    ensures var s := GroupFree(g, bits, i);
            && (forall k :: 0 <= k < |s| ==> 1 <= s[k] <= g.Blocks() && Rank(g, i, s[k]) < g.blocksPerGroup)
            && (forall k, l :: 0 <= k < l < |s| ==> Rank(g, i, s[k]) < Rank(g, i, s[l]))
  {
    var s := GroupFree(g, bits, i);
    GroupWithin(g, i);
    FreeInMeans(bits, BlockBase(g, i), BlockBase(g, i) + g.blocksPerGroup);
    forall k | 0 <= k < |s|
      ensures 1 <= s[k] <= g.Blocks() && Rank(g, i, s[k]) == s[k] - GroupIndex(g, i) < g.blocksPerGroup
    {
      RankInGroup(g, i, i, s[k]);
    }
  }

  lemma RestRanks(g: Geo, bits: seq<bool>, i: nat, n: nat)
    requires g.Ok() && i < g.groups && |bits| == g.Blocks() && 0 < n < g.groups
    ensures Next(g, i) < g.groups
    ensures var next := Next(g, i);
            var s := ScanFree(g, bits, next, n - 1);
            forall k :: 0 <= k < |s| ==>
              1 <= s[k] <= g.Blocks() && Rank(g, i, s[k]) == Rank(g, next, s[k]) + g.blocksPerGroup
  {
    var next := Next(g, i);
    DistanceStep(g, i, i);
    var s := ScanFree(g, bits, next, n - 1);
    forall k | 0 <= k < |s|
      ensures 1 <= s[k] <= g.Blocks() && Rank(g, i, s[k]) == Rank(g, next, s[k]) + g.blocksPerGroup
    {
      assert s[k] in s;
      ScanFreeMembers(g, bits, next, n - 1, s[k]);
      GroupInRange(g, bits, s[k]);
      DistanceStep(g, i, GroupOf(g, s[k]));
      RankStep(g, i, s[k]);
    }
  }

  /** All metadata blocks are marked in use, so that they are never handed out. */
  ghost predicate MetaMarked(fs: Fs) {
    forall b :: 1 <= b <= |fs.blockBits| && b !in fs.data ==> fs.blockBits[b - 1]
  }

  /** The blocks are free data blocks, each listed once. */
  ghost predicate FreshBlocks(fs: Fs, blocks: seq<nat>) {
    && (forall k :: 0 <= k < |blocks| ==> IsFree(fs.g, fs.blockBits, blocks[k]) && blocks[k] in fs.data)
    && (forall k, l :: 0 <= k < l < |blocks| ==> blocks[k] != blocks[l])
  }

  lemma FreeFromMeans(fs: Fs, group: nat)
    requires Ok(fs) && MetaMarked(fs) && group < fs.g.groups
    ensures Ascending(fs.g, group, FreeFrom(fs, group)) && FreshBlocks(fs, FreeFrom(fs, group))
  {
    var all := FreeFrom(fs, group);
    ScanFreeAscends(fs.g, fs.blockBits, group, fs.g.groups - 1);
    forall k | 0 <= k < |all| ensures IsFree(fs.g, fs.blockBits, all[k]) && all[k] in fs.data {
      assert all[k] in all;
      ScanFreeMembers(fs.g, fs.blockBits, group, fs.g.groups - 1, all[k]);
    }
    hide Rank, FreeFrom;
  }

  /** A scan from the group reaches the group of the block, which is any but the one just before the hint. */
  predicate Scans(g: Geo, group: nat, b: nat) {
    b >= 1 && g.blocksPerGroup > 0 && group < g.groups && GroupOf(g, b) < g.groups
    && Distance(g, group, GroupOf(g, b)) < g.groups - 1
  }

  /**
   * The allocator's result: `count` distinct, previously free data blocks in scan order; none of them lies in
   * the group just before the hint.
   */
  lemma BallocsMeans(fs: Fs, group: nat, count: nat)
    requires Ok(fs) && MetaMarked(fs) && CanAllocate(fs, group, count)
    ensures var blocks := Ballocs(fs, group, count).0;
            && |blocks| == count && Ascending(fs.g, group, blocks) && FreshBlocks(fs, blocks)
            && forall k :: 0 <= k < count ==> Scans(fs.g, group, blocks[k])
  {
    var all, blocks := FreeFrom(fs, group), Ballocs(fs, group, count).0;
    FreeFromMeans(fs, group);
    forall k | 0 <= k < count ensures Scans(fs.g, group, blocks[k]) {
      assert blocks[k] == all[k] && all[k] in all;
      ScanFreeMembers(fs.g, fs.blockBits, group, fs.g.groups - 1, all[k]);
    }
    hide Rank, FreeFrom, IsFree, Scans;
  }

  /** One block can be allocated exactly if one of the scanned groups has a free block. */
  lemma CanAllocateOne(fs: Fs, group: nat)
    requires fs.g.Ok() && group < fs.g.groups && |fs.blockBits| == fs.g.Blocks()
    ensures CanAllocate(fs, group, 1) <==> exists b :: IsFree(fs.g, fs.blockBits, b) && Scans(fs.g, group, b)
  {
    var all := FreeFrom(fs, group);
    if all != [] {
      assert all[0] in all;
      ScanFreeMembers(fs.g, fs.blockBits, group, fs.g.groups - 1, all[0]);
    } else {
      forall b | IsFree(fs.g, fs.blockBits, b) ensures !Scans(fs.g, group, b) {
        ScanFreeMembers(fs.g, fs.blockBits, group, fs.g.groups - 1, b);
      }
    }
    hide ScanFree, Distance, IsFree;
  }

  /** No free block of a scanned group is skipped: one that is not returned comes later than all returned ones. */
  lemma BallocsSkipsNone(fs: Fs, group: nat, count: nat, b: nat, k: nat)
    requires Ok(fs) && MetaMarked(fs) && CanAllocate(fs, group, count)
    requires IsFree(fs.g, fs.blockBits, b) && b !in Ballocs(fs, group, count).0 && k < count
    ensures GroupOf(fs.g, b) < fs.g.groups && 1 <= Ballocs(fs, group, count).0[k] <= fs.g.Blocks()
    ensures Distance(fs.g, group, GroupOf(fs.g, b)) < fs.g.groups - 1 ==>
              Rank(fs.g, group, Ballocs(fs, group, count).0[k]) < Rank(fs.g, group, b)
  {
    var all := FreeFrom(fs, group);
    FreeFromMeans(fs, group);
    GroupInRange(fs.g, fs.blockBits, b);
    ScanFreeMembers(fs.g, fs.blockBits, group, fs.g.groups - 1, b);
    hide Rank, FreeFrom, IsFree;
    assert all[k] == all[..count][k];
    if b in all {
      var l :| 0 <= l < |all| && all[l] == b;
      assert forall j :: 0 <= j < count ==> all[..count][j] == all[j];
    }
  }

  /**
   * A free block that a scan from the group reaches, in the group at the least cyclic distance that has one, and the
   * lowest there.
   */
  ghost predicate Nearest(g: Geo, bits: seq<bool>, group: nat, n: nat) {
    && IsFree(g, bits, n) && Scans(g, group, n)
    && forall b :: IsFree(g, bits, b) && Scans(g, group, b) ==>
         || Distance(g, group, GroupOf(g, n)) < Distance(g, group, GroupOf(g, b))
         || (GroupOf(g, n) == GroupOf(g, b) && n <= b)
  }

  lemma RankOrder(d: nat, o: nat, e: nat, p: nat, m: nat)
    requires o < m && p < m && d * m + o < e * m + p
    ensures d < e || (d == e && o < p)
  {
    var k := d - e;
    assert d * m == e * m + k * m;
    assert k >= 1 ==> k * m >= m;
  }

  lemma Nearer(g: Geo, group: nat, n: nat, b: nat)
    requires g.Ok() && group < g.groups && 1 <= n <= g.Blocks() && 1 <= b <= g.Blocks()
    requires Rank(g, group, n) < Rank(g, group, b)
    ensures GroupOf(g, n) < g.groups && GroupOf(g, b) < g.groups
    ensures || Distance(g, group, GroupOf(g, n)) < Distance(g, group, GroupOf(g, b))
            || (GroupOf(g, n) == GroupOf(g, b) && n <= b)
  {
    DivBound(n - 1, g.blocksPerGroup, g.groups);
    DivBound(b - 1, g.blocksPerGroup, g.groups);
    hide Geo.Ok, Geo.Blocks;
    RankOrder(Distance(g, group, GroupOf(g, n)), (n - 1) % g.blocksPerGroup, Distance(g, group, GroupOf(g, b)),
              (b - 1) % g.blocksPerGroup, g.blocksPerGroup);
  }

  /** The first block that an allocation returns is the nearest one. */
  lemma FirstIsNearest(fs: Fs, group: nat)
    requires Ok(fs) && MetaMarked(fs) && CanAllocate(fs, group, 1)
    ensures Nearest(fs.g, fs.blockBits, group, FreeFrom(fs, group)[0]) && FreeFrom(fs, group)[0] in fs.data
  {
    var g, n := fs.g, FreeFrom(fs, group)[0];
    assert Ballocs(fs, group, 1).0 == [n];
    hide FreeFrom, Ok, MetaMarked, Ballocs, Rank, Distance, GroupOf, Geo.Ok;
    BallocsMeans(fs, group, 1);
    assert n == Ballocs(fs, group, 1).0[0];
    forall b: nat | IsFree(g, fs.blockBits, b) && Scans(g, group, b)
      ensures || Distance(g, group, GroupOf(g, n)) < Distance(g, group, GroupOf(g, b))
              || (GroupOf(g, n) == GroupOf(g, b) && n <= b)
    {
      if b != n {
        BallocsSkipsNone(fs, group, 1, b, 0);
        Nearer(g, group, n, b);
      }
    }
  }

  // ----- the scan, step by step -----

  lemma {:induction false} FreeInSplit(bits: seq<bool>, lo: nat, mid: nat, hi: nat)
    requires lo <= mid <= hi <= |bits|
    ensures FreeIn(bits, lo, hi) == FreeIn(bits, lo, mid) + FreeIn(bits, mid, hi)
    decreases mid - lo
  {
    if lo < mid {
      FreeInSplit(bits, lo + 1, mid, hi);
    }
  }

  lemma {:induction false} FreeInNone(bits: seq<bool>, lo: nat, hi: nat)
    requires lo <= hi <= |bits| && forall k :: lo <= k < hi ==> bits[k]
    ensures FreeIn(bits, lo, hi) == []
    decreases hi - lo
  {
    if lo < hi {
      FreeInNone(bits, lo + 1, hi);
    }
  }

  /** Skipping set bits and then taking a clear one adds just that block. */
  lemma FreeInNext(bits: seq<bool>, lo: nat, mid: nat, p: nat)
    requires lo <= mid <= p < |bits| && !bits[p] && forall k :: mid <= k < p ==> bits[k]
    ensures FreeIn(bits, lo, p + 1) == FreeIn(bits, lo, mid) + [p + 1]
  {
    FreeInSplit(bits, lo, mid, p + 1);
    FreeInSplit(bits, mid, p, p + 1);
    FreeInNone(bits, mid, p);
    assert FreeIn(bits, p, p + 1) == [p + 1] + FreeIn(bits, p + 1, p + 1);
  }

  lemma NextGroup(g: Geo, start: nat, i: nat)
    requires start < g.groups && i < g.groups
    ensures Next(g, i) < g.groups && Distance(g, start, i) < g.groups
    ensures Next(g, i) == start <==> Distance(g, start, i) == g.groups - 1
    ensures Next(g, i) != start ==> Distance(g, start, Next(g, i)) == Distance(g, start, i) + 1
  {
  }

  lemma {:induction false} ScanFreeNext(g: Geo, bits: seq<bool>, start: nat, n: nat, i: nat)
    requires start < g.groups && i < g.groups && |bits| == g.Blocks() && Distance(g, start, i) == n
    ensures ScanFree(g, bits, start, n + 1) == ScanFree(g, bits, start, n) + GroupFree(g, bits, i)
    decreases n
  {
    hide GroupFree;
    DistanceStep(g, start, i);
    if n == 0 {
      assert ScanFree(g, bits, Next(g, start), 0) == [];
    } else {
      var next := Next(g, start);
      ScanFreeNext(g, bits, next, n - 1, i);
    }
  }

  lemma {:induction false} ScanFreePrefix(g: Geo, bits: seq<bool>, start: nat, n: nat, m: nat)
    requires start < g.groups && |bits| == g.Blocks() && n <= m
    ensures ScanFree(g, bits, start, n) <= ScanFree(g, bits, start, m)
    decreases n
  {
    hide GroupFree;
    if n > 0 {
      ScanFreePrefix(g, bits, Next(g, start), n - 1, m - 1);
    }
  }

  /** Blocks found in earlier groups do not lie in this one. */
  lemma EarlierGroups(g: Geo, bits: seq<bool>, start: nat, i: nat, b: nat)
    requires g.Ok() && start < g.groups && i < g.groups && |bits| == g.Blocks()
    requires b in ScanFree(g, bits, start, Distance(g, start, i))
    ensures b <= BlockBase(g, i) || b > BlockBase(g, i) + g.blocksPerGroup
  {
    ScanFreeMembers(g, bits, start, Distance(g, start, i), b);
    InGroup(g, i, b);
  }

  lemma FreeInMember(bits: seq<bool>, lo: nat, hi: nat, b: nat)
    requires lo <= hi <= |bits| && b >= 1
    ensures b in FreeIn(bits, lo, hi) <==> lo < b <= hi && !bits[b - 1]
  {
    FreeInMeans(bits, lo, hi);
    var s := FreeIn(bits, lo, hi);
    if b in s {
      var k :| 0 <= k < |s| && s[k] == b;
    } else if lo < b <= hi && !bits[b - 1] {
      FreeInComplete(bits, lo, hi, b);
    }
  }

  /** A group's bitmap in which the clear bits of the first `c` positions have been set. */
  ghost predicate Filled(bits: seq<bool>, lo: nat, content: seq<bool>, c: nat) {
    && lo + |content| <= |bits| && c <= |content|
    && forall k :: 0 <= k < |content| ==> content[k] == (k < c || bits[lo + k])
  }

  /** One round of the allocation loop: the next clear bit is found and set, or there is none. */
  lemma FilledNext(bits: seq<bool>, lo: nat, content: seq<bool>, c: nat, start: nat, p: nat)
    requires Filled(bits, lo, content, c) && start <= c && start <= p < |content| && !content[p]
    requires forall k :: start <= k < p ==> content[k]
    ensures c <= p && Filled(bits, lo, content[p := true], p + 1)
    ensures FreeIn(bits, lo, lo + p + 1) == FreeIn(bits, lo, lo + c) + [lo + p + 1]
  {
    hide FreeIn;
    assert c <= p;
    forall k | lo + c <= k < lo + p ensures bits[k] {
      assert content[k - lo];
    }
    FreeInNext(bits, lo, lo + c, lo + p);
  }

  lemma FilledAll(bits: seq<bool>, lo: nat, content: seq<bool>, c: nat, start: nat)
    requires Filled(bits, lo, content, c) && start <= c
    requires forall k :: start <= k < |content| ==> content[k]
    ensures Filled(bits, lo, content, |content|)
    ensures FreeIn(bits, lo, lo + |content|) == FreeIn(bits, lo, lo + c)
  {
    forall k | lo + c <= k < lo + |content| ensures bits[k] {
      assert content[k - lo];
    }
    FreeInSplit(bits, lo, lo + c, lo + |content|);
    FreeInNone(bits, lo + c, lo + |content|);
  }

  lemma FilledNone(bits: seq<bool>, lo: nat, hi: nat)
    requires lo <= hi <= |bits|
    ensures Filled(bits, lo, bits[lo..hi], 0) && FreeIn(bits, lo, lo) == []
  {
  }

  /** Writing back a bitmap whose first `c` bits were filled marks the blocks those bits stand for. */
  lemma GroupWritten(bits: seq<bool>, earlier: seq<nat>, lo: nat, c: nat, content: seq<bool>)
    requires Filled(bits, lo, content, c)
    requires forall b :: b in earlier ==> b <= lo || b > lo + |content|
    ensures Splice(Marked(bits, earlier), lo, content) == Marked(bits, earlier + FreeIn(bits, lo, lo + c))
  {
    var found := FreeIn(bits, lo, lo + c);
    forall j | 0 <= j < |bits|
      ensures Splice(Marked(bits, earlier), lo, content)[j] == (bits[j] || j + 1 in earlier + found)
    {
      FreeInMember(bits, lo, lo + c, j + 1);
      hide FreeIn;
    }
  }

  /** The scan has gone through the groups from `group` up to but not including `i`. */
  ghost predicate Scanned(fs: Fs, group: nat, i: nat, ret: seq<nat>) {
    && fs.g.Ok() && group < fs.g.groups && i < fs.g.groups && |fs.blockBits| == fs.g.Blocks()
    && ret == ScanFree(fs.g, fs.blockBits, group, Distance(fs.g, group, i))
  }

  lemma ScanStarts(fs: Fs, group: nat)
    requires fs.g.Ok() && group < fs.g.groups && |fs.blockBits| == fs.g.Blocks()
    ensures Scanned(fs, group, group, []) && MarkBlocks(fs, []) == fs
  {
    MarkedNone(fs.blockBits);
  }

  /** The groups scanned so far do not touch the bits of the next one. */
  lemma GroupUntouched(fs: Fs, group: nat, i: nat, ret: seq<nat>)
    requires Scanned(fs, group, i, ret)
    ensures BlockBase(fs.g, i) + fs.g.blocksPerGroup <= |fs.blockBits|
    ensures forall b :: b in ret ==> b <= BlockBase(fs.g, i) || b > BlockBase(fs.g, i) + fs.g.blocksPerGroup
    ensures Marked(fs.blockBits, ret)[BlockBase(fs.g, i)..BlockBase(fs.g, i) + fs.g.blocksPerGroup]
            == fs.blockBits[BlockBase(fs.g, i)..BlockBase(fs.g, i) + fs.g.blocksPerGroup]
  {
    var lo := BlockBase(fs.g, i);
    GroupWithin(fs.g, i);
    forall b | b in ret ensures b <= lo || b > lo + fs.g.blocksPerGroup {
      EarlierGroups(fs.g, fs.blockBits, group, i, b);
    }
    hide ScanFree, Scanned, Distance, Geo.Ok;
    forall j | lo <= j < lo + fs.g.blocksPerGroup ensures Marked(fs.blockBits, ret)[j] == fs.blockBits[j] {
      assert j + 1 !in ret;
    }
  }

  /** What one group adds to the marks. */
  lemma ScanMarks(fs: Fs, group: nat, i: nat, ret: seq<nat>, c: nat, content: seq<bool>)
    requires Scanned(fs, group, i, ret) && |content| == fs.g.blocksPerGroup
    requires Filled(fs.blockBits, BlockBase(fs.g, i), content, c)
    ensures BlockBase(fs.g, i) + c <= BlockBase(fs.g, i) + fs.g.blocksPerGroup <= |fs.blockBits|
    ensures var found := FreeIn(fs.blockBits, BlockBase(fs.g, i), BlockBase(fs.g, i) + c);
            Splice(Marked(fs.blockBits, ret), BlockBase(fs.g, i), content) == Marked(fs.blockBits, ret + found)
  {
    assert c <= |content|;
    hide FreeIn, ScanFree, Scanned, Marked, Splice, Filled;
    GroupUntouched(fs, group, i, ret);
    GroupWritten(fs.blockBits, ret, BlockBase(fs.g, i), c, content);
  }

  /** What one group adds towards the complete list. */
  lemma ScanGroup(fs: Fs, group: nat, i: nat, ret: seq<nat>, c: nat)
    requires Scanned(fs, group, i, ret) && Next(fs.g, i) != group
    requires c <= fs.g.blocksPerGroup
    ensures BlockBase(fs.g, i) + fs.g.blocksPerGroup <= |fs.blockBits|
    ensures var found := FreeIn(fs.blockBits, BlockBase(fs.g, i), BlockBase(fs.g, i) + c);
            && ret + found <= FreeFrom(fs, group)
            && (c == fs.g.blocksPerGroup ==> Scanned(fs, group, Next(fs.g, i), ret + found))
  {
    hide FreeIn, ScanFree, Distance, Geo.Ok;
    var lo, n := BlockBase(fs.g, i), Distance(fs.g, group, i);
    GroupWithin(fs.g, i);
    NextGroup(fs.g, group, i);
    ScanFreeNext(fs.g, fs.blockBits, group, n, i);
    ScanFreePrefix(fs.g, fs.blockBits, group, n + 1, fs.g.groups - 1);
    FreeInSplit(fs.blockBits, lo, lo + c, lo + fs.g.blocksPerGroup);
    var found, rest := FreeIn(fs.blockBits, lo, lo + c), FreeIn(fs.blockBits, lo + c, lo + fs.g.blocksPerGroup);
    assert GroupFree(fs.g, fs.blockBits, i) == found + rest;
    assert ret + (found + rest) == (ret + found) + rest;
  }

  /** When the scan is about to come back to the hint it has found everything it can. */
  lemma ScanEnds(fs: Fs, group: nat, i: nat, ret: seq<nat>)
    requires Scanned(fs, group, i, ret) && Next(fs.g, i) == group
    ensures ret == FreeFrom(fs, group)
  {
    NextGroup(fs.g, group, i);
  }

  // ----- conservation -----

  function FreeBlocks(fs: Fs): nat {
    BitMap.Tally(fs.blockBits, 0, false)
  }

  lemma MarkedNone(bits: seq<bool>)
    ensures Marked(bits, []) == bits
  {
  }

  lemma MarkedOne(bits: seq<bool>, blocks: seq<nat>, b: nat)
    requires 1 <= b <= |bits|
    ensures Marked(bits, blocks + [b]) == Marked(bits, blocks)[b - 1 := true]
  {
  }

  lemma TallySet(bits: seq<bool>, p: nat, pos: nat)
    requires p <= pos < |bits| && !bits[pos]
    ensures BitMap.Tally(bits, p, false) == BitMap.Tally(bits[pos := true], p, false) + 1
    decreases |bits| - p
  {
    var bits' := bits[pos := true];
    assert bits'[pos := false] == bits;
    BitMap.TallyAfterUpdate(bits', p, false, pos);
  }

  lemma {:induction false} MarkedTally(bits: seq<bool>, blocks: seq<nat>)
    requires forall k :: 0 <= k < |blocks| ==> 1 <= blocks[k] <= |bits| && !bits[blocks[k] - 1]
    requires forall k, l :: 0 <= k < l < |blocks| ==> blocks[k] != blocks[l]
    ensures BitMap.Tally(Marked(bits, blocks), 0, false) + |blocks| == BitMap.Tally(bits, 0, false)
  {
    if blocks == [] {
      MarkedNone(bits);
    } else {
      var n := |blocks| - 1;
      MarkedTally(bits, blocks[..n]);
      assert blocks == blocks[..n] + [blocks[n]];
      MarkedOne(bits, blocks[..n], blocks[n]);
      assert !Marked(bits, blocks[..n])[blocks[n] - 1];
      TallySet(Marked(bits, blocks[..n]), 0, blocks[n] - 1);
    }
  }

  // ----- the group that is never scanned -----

  lemma {:induction false} FreeInTally(bits: seq<bool>, lo: nat)
    requires lo <= |bits|
    ensures |FreeIn(bits, lo, |bits|)| == BitMap.Tally(bits, lo, false)
    decreases |bits| - lo
  {
    if lo < |bits| {
      FreeInTally(bits, lo + 1);
    }
  }

  /** A scan from the first group on finds the free blocks in increasing order. */
  lemma {:induction false} ScanFromFirst(g: Geo, bits: seq<bool>, n: nat)
    requires n <= g.groups && g.groups > 0 && |bits| == g.Blocks()
    ensures BlockBase(g, n) <= |bits| && ScanFree(g, bits, 0, n) == FreeIn(bits, 0, BlockBase(g, n))
    decreases n
  {
    if n > 0 {
      GroupWithin(g, n - 1);
      ScanFromFirst(g, bits, n - 1);
      ScanFreeNext(g, bits, 0, n - 1, n - 1);
      FreeInSplit(bits, 0, BlockBase(g, n - 1), BlockBase(g, n));
    }
  }

  /** A scan of all groups finds as many blocks wherever it starts. */
  lemma {:induction false} WholeScan(g: Geo, bits: seq<bool>, i: nat)
    requires i < g.groups && |bits| == g.Blocks()
    ensures |ScanFree(g, bits, i, g.groups)| == |ScanFree(g, bits, 0, g.groups)|
    decreases g.groups - i
  {
    if i > 0 {
      hide GroupFree;
      NextGroup(g, Next(g, i), i);
      DistanceStep(g, i, i);
      ScanFreeNext(g, bits, Next(g, i), g.groups - 1, i);
      if Next(g, i) != 0 {
        WholeScan(g, bits, Next(g, i));
      }
    }
  }

  /** What an allocation can find is all that is free, but for the free blocks of the group just before the hint. */
  lemma FreeFromCount(fs: Fs, group: nat, last: nat)
    requires fs.g.Ok() && group < fs.g.groups && |fs.blockBits| == fs.g.Blocks()
    requires last < fs.g.groups && Next(fs.g, last) == group
    ensures |FreeFrom(fs, group)| + |GroupFree(fs.g, fs.blockBits, last)| == FreeBlocks(fs)
  {
    hide ScanFree, GroupFree, FreeIn, Distance;
    var g, bits := fs.g, fs.blockBits;
    NextGroup(g, group, last);
    ScanFreeNext(g, bits, group, g.groups - 1, last);
    WholeScan(g, bits, group);
    ScanFromFirst(g, bits, g.groups);
    FreeInTally(bits, 0);
  }

  /** Exactly the returned bits flip, so the total of free blocks drops by exactly the count. */
  lemma BallocsConserves(fs: Fs, group: nat, count: nat)
    requires Ok(fs) && MetaMarked(fs) && CanAllocate(fs, group, count)
    ensures var (blocks, fs') := Ballocs(fs, group, count);
            && FreeBlocks(fs') + count == FreeBlocks(fs)
            && fs' == fs.(blockBits := fs'.blockBits)
            && (forall j :: 0 <= j < |fs.blockBits| ==> fs'.blockBits[j] == (fs.blockBits[j] || j + 1 in blocks))
            && Ok(fs') && MetaMarked(fs')
  {
    var blocks := Ballocs(fs, group, count).0;
    BallocsMeans(fs, group, count);
    MarkKeeps(fs, blocks);
  }

  lemma MarkKeeps(fs: Fs, blocks: seq<nat>)
    requires Ok(fs) && MetaMarked(fs) && FreshBlocks(fs, blocks)
    ensures Ok(MarkBlocks(fs, blocks)) && MetaMarked(MarkBlocks(fs, blocks))
    ensures FreeBlocks(MarkBlocks(fs, blocks)) + |blocks| == FreeBlocks(fs)
  {
    forall k | 0 <= k < |blocks| ensures 1 <= blocks[k] <= |fs.blockBits| && !fs.blockBits[blocks[k] - 1] {
      assert IsFree(fs.g, fs.blockBits, blocks[k]);
    }
    MarkedTally(fs.blockBits, blocks);
  }

  /** Freeing a block just allocated passes the assertions of `bfree`, hits its own bit and restores every bitmap. */
  lemma BfreeUndoesBalloc(fs: Fs, group: nat)
    requires Ok(fs) && MetaMarked(fs) && CanAllocate(fs, group, 1)
    ensures var (blocks, fs') := Ballocs(fs, group, 1);
            var b := blocks[0];
            && 1 <= b <= |fs'.blockBits|
            && (b - 1) / fs.g.blocksPerGroup < fs.g.groups
            && (b - 1) % fs.g.blocksPerGroup >= fs.g.MetaBlocks()
            && Bfree(fs', b) == fs
  {
    BallocsMeans(fs, group, 1);
    var b := Ballocs(fs, group, 1).0[0];
    assert IsFree(fs.g, fs.blockBits, b) && b in fs.data;
    DivBound(b - 1, fs.g.blocksPerGroup, fs.g.groups);
    MarkedNone(fs.blockBits);
    assert Ballocs(fs, group, 1).0 == [] + [b];
    MarkedOne(fs.blockBits, [], b);
    assert fs.blockBits[b - 1 := true][b - 1 := false] == fs.blockBits;
  }

  /** `ialloc`: 0 only when every number from 11 on is taken; else the least free one, and only its bit changes. */
  lemma IallocMeans(fs: Fs)
    requires Ok(fs)
    ensures var (ino, fs') := Ialloc(fs);
            && fs' == fs.(inodeBits := fs'.inodeBits) && Ok(fs')
            && (ino == 0 ==> fs' == fs && forall j :: FIRST_INO - 1 <= j < |fs.inodeBits| ==> fs.inodeBits[j])
            && (ino != 0 ==> FIRST_INO <= ino <= fs.g.Inodes() && !fs.inodeBits[ino - 1]
                             && fs'.inodeBits == fs.inodeBits[ino - 1 := true]
                             && forall j :: FIRST_INO - 1 <= j < ino - 1 ==> fs.inodeBits[j])
  {
  }

  /** All inode numbers from 11 up to and including `n` are taken. */
  ghost predicate TakenUpTo(bits: seq<bool>, n: nat) {
    n <= |bits| && forall j :: FIRST_INO - 1 <= j < n ==> bits[j]
  }

  lemma TakenMore(bits: seq<bool>, lo: nat, content: seq<bool>, from: nat, p: nat)
    requires lo + |content| <= |bits| && content == bits[lo..lo + |content|]
    requires from <= p <= |content| && TakenUpTo(bits, lo + from) && forall k :: from <= k < p ==> content[k]
    ensures TakenUpTo(bits, lo + p)
    ensures lo + p + 1 < FIRST_INO && p < |content| ==> TakenUpTo(bits, lo + p + 1)
  {
    forall j | lo + from <= j < lo + p ensures bits[j] {
      assert content[j - lo];
    }
  }

  lemma IallocFinds(fs: Fs, ino: nat)
    requires FIRST_INO <= ino <= |fs.inodeBits| && !fs.inodeBits[ino - 1] && TakenUpTo(fs.inodeBits, ino - 1)
    ensures Ialloc(fs) == (ino, fs.(inodeBits := fs.inodeBits[ino - 1 := true]))
  {
  }

  lemma NoFreeInode(bits: seq<bool>)
    requires TakenUpTo(bits, |bits|)
    ensures NextFreeInode(bits, FIRST_INO) == 0
  {
  }

  lemma SpliceBit(bits: seq<bool>, lo: nat, content: seq<bool>, p: nat)
    requires lo + |content| <= |bits| && content == bits[lo..lo + |content|] && p < |content|
    ensures Splice(bits, lo, content[p := true]) == bits[lo + p := true]
    ensures Splice(bits, lo, content[p := false]) == bits[lo + p := false]
  {
  }

  lemma FreeFromBounds(fs: Fs, group: nat, k: nat)
    requires Ok(fs) && group < fs.g.groups && k < |FreeFrom(fs, group)|
    ensures 1 <= FreeFrom(fs, group)[k] <= fs.g.Blocks() && !fs.blockBits[FreeFrom(fs, group)[k] - 1]
  {
    hide ScanFree;
    var b := FreeFrom(fs, group)[k];
    assert b in FreeFrom(fs, group);
    ScanFreeMembers(fs.g, fs.blockBits, group, fs.g.groups - 1, b);
  }
}
