/** Sessions: format or mount, run, sync, and mount again. */
module Sessions {
  import opened Bytes
  import opened Geometry
  import opened Inodes
  import opened DirRecords
  import opened Fs
  import opened Image
  import opened Invariant
  import opened DirMaps
  import opened Balance
  import opened Fathers
  import opened Namespace
  import opened World
  import opened Runs
  import A = Allocation
  import L = LruModel
  import S = SuperBlock
  import M = Formatting
  import X = Ext2m

  const TABLE: seq<Fd> := [CLOSED, CLOSED, CLOSED]

  /** The world of a program that has just formatted its disk. */
  function Start(img: seq<Block>, totalBlocks: nat, now: nat, rest: seq<byte>): World
    requires |img| == totalBlocks && HasRoom(totalBlocks) && Word(now) && |rest| == BLOCK_SIZE - 92
    requires X.CanFormat(img, totalBlocks, now, rest)
  {
    World(X.AfterFormat(img, totalBlocks, now, rest), TABLE)
  }

  lemma ZeroBitAt(g: Geo, img: seq<Block>, p: nat)
    requires Fits(g, img) && p < g.Blocks() && forall b :: 0 <= b < |img| ==> img[b] == ZeroBlock()
    ensures !Abs(g, img).blockBits[p]
  {
    var (i, k) := Cut(p, g.blocksPerGroup, g.groups);
    AddressLocated(g, i, BlockBitmap);
    GroupBitsMean(g, img, i);
    hide BlockBitAt;
    assert Abs(g, img).blockBits[BlockBase(g, i)..BlockBase(g, i) + g.blocksPerGroup][k] == GroupBits(g, img, i)[k];
  }

  /** The blocks of the first group behind its metadata are data blocks. */
  lemma FirstData(g: Geo, b: nat)
    requires g.Ok() && g.MetaBlocks() < b <= g.blocksPerGroup
    ensures b <= g.Blocks() && IsData(g, b) && A.GroupOf(g, b) == 0
  {
    GroupWithin(g, 0);
  }

  /** A zeroed disk with at least two full groups can be formatted. */
  lemma ZeroDiskFormats(img: seq<Block>, totalBlocks: nat, now: nat, rest: seq<byte>)
    requires |img| == totalBlocks && HasRoom(totalBlocks) && Word(now) && |rest| == BLOCK_SIZE - 92
    requires GroupsOn(totalBlocks) >= 2 && forall b :: 0 <= b < |img| ==> img[b] == ZeroBlock()
    ensures X.CanFormat(img, totalBlocks, now, rest)
  {
    LayoutSound(totalBlocks);
    var g := GeoOf(BlockGroupCalculation(totalBlocks));
    assert g.groups == GroupsOn(totalBlocks) && g.DataBlocks() == BlockGroupCalculation(totalBlocks).dataBlocks;
    assert g.inodesPerGroup > 0;
    hide Abs, BlockGroupCalculation, HasRoom;
    GroupWithin(g, 0);
    ZeroBitAt(g, img, g.MetaBlocks());
    FirstData(g, g.MetaBlocks() + 1);
    assert A.IsFree(g, Abs(g, img).blockBits, g.MetaBlocks() + 1);
    hide A.IsFree, A.GroupOf, IsData, Geo.Ok;
    M.FormatPossible(g, Abs(g, img).blockBits, S.SuperBlockOf(g, now, rest));
  }

  lemma StartGood(img: seq<Block>, totalBlocks: nat, now: nat, rest: seq<byte>)
    requires |img| == totalBlocks && HasRoom(totalBlocks) && Word(now) && |rest| == BLOCK_SIZE - 92
    requires X.CanFormat(img, totalBlocks, now, rest)
    ensures Good(Start(img, totalBlocks, now, rest))
  {
    hide X.AfterFormat, X.CanFormat, Inv, S.Describes, Good;
    X.AfterFormatRecognised(img, totalBlocks, now, rest);
    TableGood(X.AfterFormat(img, totalBlocks, now, rest));
  }

  lemma TableGood(fs: Fs)
    requires Inv(fs)
    ensures Good(World(fs, TABLE))
  {
    hide Inv;
  }

  lemma StartTree(img: seq<Block>, totalBlocks: nat, now: nat, rest: seq<byte>)
    requires |img| == totalBlocks && HasRoom(totalBlocks) && Word(now) && |rest| == BLOCK_SIZE - 92
    requires X.CanFormat(img, totalBlocks, now, rest)
    ensures Tree(X.AfterFormat(img, totalBlocks, now, rest))
  {
    hide M.CanFormat, M.Formatted, Abs, S.SuperBlockOf, Inv, MapOf, Find, AllBlocks, Tree, FathersAgree,
         BlockGroupCalculation, Live;
    LayoutSound(totalBlocks);
    var g := GeoOf(BlockGroupCalculation(totalBlocks));
    M.FormattedGood(g, Abs(g, img).blockBits, S.SuperBlockOf(g, now, rest), now);
    RootAlone(X.AfterFormat(img, totalBlocks, now, rest));
  }

  lemma StartFathers(img: seq<Block>, totalBlocks: nat, now: nat, rest: seq<byte>)
    requires |img| == totalBlocks && HasRoom(totalBlocks) && Word(now) && |rest| == BLOCK_SIZE - 92
    requires X.CanFormat(img, totalBlocks, now, rest)
    ensures FathersAgree(X.AfterFormat(img, totalBlocks, now, rest))
  {
    hide M.CanFormat, M.Formatted, Abs, S.SuperBlockOf, Inv, MapOf, Find, AllBlocks, BlockGroupCalculation, Live,
         FathersAgree;
    LayoutSound(totalBlocks);
    var g := GeoOf(BlockGroupCalculation(totalBlocks));
    M.FormattedGood(g, Abs(g, img).blockBits, S.SuperBlockOf(g, now, rest), now);
    var n := M.FormattedRoot(g, Abs(g, img).blockBits, S.SuperBlockOf(g, now, rest), now);
    RootFathers(X.AfterFormat(img, totalBlocks, now, rest), n);
  }

  /**
   * Every run that starts with a formatted disk keeps ownership and isolation, the super block, and the tree; all
   * blocks of a directory name the same father.
   */
  lemma SessionKeeps(img: seq<Block>, totalBlocks: nat, now: nat, rest: seq<byte>, calls: seq<Call>)
    requires |img| == totalBlocks && HasRoom(totalBlocks) && Word(now) && |rest| == BLOCK_SIZE - 92
    requires X.CanFormat(img, totalBlocks, now, rest) && CanRun(Start(img, totalBlocks, now, rest), calls)
    ensures var w := Run(Start(img, totalBlocks, now, rest), calls);
            && Good(w) && S.Describes(w.fs.super, w.fs.g) && w.fs.g == GeoOf(BlockGroupCalculation(totalBlocks))
            && Tree(w.fs) && FathersAgree(w.fs)
  {
    hide X.CanFormat, X.AfterFormat, Inv, S.Describes, Good, CanRun, Run, NamesGrow, BlockGroupCalculation, Tree,
         FathersAgree;
    StartTree(img, totalBlocks, now, rest);
    StartFathers(img, totalBlocks, now, rest);
    StartGood(img, totalBlocks, now, rest);
    X.AfterFormatRecognised(img, totalBlocks, now, rest);
    RunKeeps(Start(img, totalBlocks, now, rest), calls);
  }

  /** A new file system has lost nothing exactly if no data block of the disk was marked before. */
  lemma StartLoses(img: seq<Block>, totalBlocks: nat, now: nat, rest: seq<byte>)
    requires |img| == totalBlocks && HasRoom(totalBlocks) && Word(now) && |rest| == BLOCK_SIZE - 92
    requires X.CanFormat(img, totalBlocks, now, rest)
    ensures var g := GeoOf(BlockGroupCalculation(totalBlocks));
            Fits(g, img) && (NothingLost(Start(img, totalBlocks, now, rest).fs)
                             <==> forall b :: IsData(g, b) ==> A.IsFree(g, Abs(g, img).blockBits, b))
  {
    hide M.CanFormat, M.Formatted, Abs, S.SuperBlockOf, BlockGroupCalculation, NothingLost, IsData, A.IsFree;
    LayoutSound(totalBlocks);
    var g := GeoOf(BlockGroupCalculation(totalBlocks));
    M.FormattedLoses(g, Abs(g, img).blockBits, S.SuperBlockOf(g, now, rest), now);
  }

  lemma ZeroNothingLost(img: seq<Block>, totalBlocks: nat, now: nat, rest: seq<byte>)
    requires |img| == totalBlocks && HasRoom(totalBlocks) && Word(now) && |rest| == BLOCK_SIZE - 92
    requires X.CanFormat(img, totalBlocks, now, rest) && forall b :: 0 <= b < |img| ==> img[b] == ZeroBlock()
    ensures NothingLost(Start(img, totalBlocks, now, rest).fs)
  {
    hide X.CanFormat, BlockGroupCalculation, NothingLost, Abs, Start, HasRoom;
    StartLoses(img, totalBlocks, now, rest);
    var g := GeoOf(BlockGroupCalculation(totalBlocks));
    forall b: nat | IsData(g, b) ensures A.IsFree(g, Abs(g, img).blockBits, b) {
      ZeroBitAt(g, img, b - 1);
    }
  }

  /** Every run from a formatted disk of zeros accounts for all blocks: a data block is either free or listed. */
  lemma SessionBalances(img: seq<Block>, totalBlocks: nat, now: nat, rest: seq<byte>, calls: seq<Call>)
    requires |img| == totalBlocks && HasRoom(totalBlocks) && Word(now) && |rest| == BLOCK_SIZE - 92
    requires X.CanFormat(img, totalBlocks, now, rest) && CanRun(Start(img, totalBlocks, now, rest), calls)
    requires forall b :: 0 <= b < |img| ==> img[b] == ZeroBlock()
    ensures var fs := Run(Start(img, totalBlocks, now, rest), calls).fs;
            NothingLost(fs) && A.FreeBlocks(fs) + |ListedBlocks(fs)| == |fs.data|
  {
    hide X.CanFormat, X.AfterFormat, Inv, CanRun, Run, NamesGrow, Advances, BlockGroupCalculation, Tree, FathersAgree,
         NothingLost, A.FreeBlocks, ListedBlocks, FdsGood, Start, HasRoom;
    ZeroNothingLost(img, totalBlocks, now, rest);
    StartGood(img, totalBlocks, now, rest);
    RunKeeps(Start(img, totalBlocks, now, rest), calls);
    FreeBalance(Run(Start(img, totalBlocks, now, rest), calls).fs);
  }

  /**
   * The mount round trip: after formatting, any run, and a sync, a fresh cache of any capacity shows every block as
   * before, the disk is recognised, and mounting it gives back the geometry and the file system of the run's end.
   */
  lemma MountRoundTrip(img: seq<Block>, totalBlocks: nat, now: nat, rest: seq<byte>, calls: seq<Call>,
                       m: L.State, capacity: nat, later: nat)
    requires |img| == totalBlocks && HasRoom(totalBlocks) && Word(now) && Word(later) && |rest| == BLOCK_SIZE - 92
    requires X.CanFormat(img, totalBlocks, now, rest) && CanRun(Start(img, totalBlocks, now, rest), calls)
    requires L.Ok(m) && |L.View(m)| == totalBlocks && Fits(GeoOf(BlockGroupCalculation(totalBlocks)), L.View(m))
    requires Abs(GeoOf(BlockGroupCalculation(totalBlocks)), L.View(m))
        == Run(Start(img, totalBlocks, now, rest), calls).fs
    ensures var again := L.View(L.Fresh(capacity, L.FlushAll(m).disk));
            && again == L.View(m) && S.IsExt2(again[1])
            && X.Mountable(again, totalBlocks, later, rest)
            && X.AfterMount(again, totalBlocks, later, rest) == Run(Start(img, totalBlocks, now, rest), calls).fs
  {
    var g := GeoOf(BlockGroupCalculation(totalBlocks));
    var again := L.View(L.Fresh(capacity, L.FlushAll(m).disk));
    L.FlushAllKeeps(m);
    assert again == L.View(m);
    X.SuperIs(g, again);
    hide X.CanFormat, X.AfterFormat, Good, CanRun, Run, BlockGroupCalculation, X.AfterMount, X.Mountable, Abs, L.View,
         S.IsExt2, S.ReadGeo, Start;
    SessionKeeps(img, totalBlocks, now, rest, calls);
  }
}
