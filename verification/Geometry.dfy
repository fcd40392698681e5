/** How the disk is divided into block groups, and where each structure of a group lies. */
module Geometry {
  import opened Bytes

  const INODE_SIZE: nat := 128
  const GROUP_DESC_SIZE: nat := 32
  const BYTES_PER_INODE: nat := 2048
  const MAX_BLOCKS_PER_GROUP: nat := 8 * BLOCK_SIZE
  const FIRST_INO: nat := 11
  const ROOT_INODE: nat := 2
  const INODES_PER_BLOCK: nat := 8

  function Ceil(x: nat, y: nat): (c: nat)
    requires y > 0
    ensures y * c >= x && (c > 0 ==> y * (c - 1) < x)
  {
    var c := (x + y - 1) / y;
    CeilBounds(x, y, c);
    c
  }

  lemma CeilBounds(x: nat, y: nat, c: nat)
    requires y > 0 && c == (x + y - 1) / y
    ensures y * c >= x && (c > 0 ==> y * (c - 1) < x)
  {
    assert x + y - 1 == y * c + (x + y - 1) % y;
    assert c > 0 ==> y * (c - 1) == y * c - y;
  }

  /** The fields that mounting or formatting sets. */
  datatype Geo = Geo(
    groups: nat,           // full groups; a shorter last group is ignored
    blocksPerGroup: nat,
    descBlocks: nat,
    inodesPerGroup: nat,
    tableBlocks: nat)
  {
    function MetaBlocks(): nat {
      3 + descBlocks + tableBlocks
    }

    function DataBlocks(): int {
      blocksPerGroup - MetaBlocks()
    }

    function Inodes(): nat {
      groups * inodesPerGroup
    }

    function Blocks(): nat {
      groups * blocksPerGroup
    }

    predicate Ok() {
      && 1 <= groups && blocksPerGroup == MAX_BLOCKS_PER_GROUP
      && MetaBlocks() <= blocksPerGroup
      && FIRST_INO <= inodesPerGroup <= MAX_BLOCKS_PER_GROUP
      && descBlocks == Ceil(groups * GROUP_DESC_SIZE, BLOCK_SIZE)
      && tableBlocks == Ceil(inodesPerGroup * INODE_SIZE, BLOCK_SIZE)
      && Blocks() + 1 < 0x1_0000_0000
      && Inodes() < 0x1_0000_0000
    }
  }

  /** The result tuple of the geometry calculation. */
  datatype Layout = Layout(
    fullGroups: nat, allGroups: nat, blocksPerGroup: nat, lastGroup: nat,
    descBlocks: nat, inodesPerGroup: nat, tableBlocks: nat, dataBlocks: int)

  function GroupsOn(totalBlocks: nat): nat
    requires totalBlocks > 0
  {
    (totalBlocks - 1) / MAX_BLOCKS_PER_GROUP
  }

  /** At least one full group, and room in it for its metadata and the reserved inodes. */
  predicate HasRoom(totalBlocks: nat) {
    && totalBlocks > MAX_BLOCKS_PER_GROUP
    && (MAX_BLOCKS_PER_GROUP - 3 - Ceil(GroupsOn(totalBlocks) * GROUP_DESC_SIZE, BLOCK_SIZE)) * BLOCK_SIZE
       >= FIRST_INO * (BYTES_PER_INODE + INODE_SIZE)
  }

  function BlockGroupCalculation(totalBlocks: nat): Layout
    requires HasRoom(totalBlocks)
  {
    var available := totalBlocks - 1;
    var fullGroups := available / MAX_BLOCKS_PER_GROUP;
    var remaining := available - MAX_BLOCKS_PER_GROUP * fullGroups;
    var allGroups := fullGroups + if remaining > 0 then 1 else 0;
    var blocksPerGroup: nat := (available - remaining) / fullGroups;
    var descBlocks := Ceil(fullGroups * GROUP_DESC_SIZE, BLOCK_SIZE);
    var remainSize := (blocksPerGroup - 3 - descBlocks) * BLOCK_SIZE;
    ExactGroup(fullGroups, available - remaining);
    var inodesPerGroup := remainSize / (BYTES_PER_INODE + INODE_SIZE);
    var tableBlocks := Ceil(inodesPerGroup * INODE_SIZE, BLOCK_SIZE);
    Layout(fullGroups, allGroups, blocksPerGroup, remaining, descBlocks, inodesPerGroup, tableBlocks,
           blocksPerGroup - 3 - descBlocks - tableBlocks)
  }

  lemma ExactGroup(groups: nat, blocks: nat)
    requires groups > 0 && blocks == MAX_BLOCKS_PER_GROUP * groups
    ensures blocks / groups == MAX_BLOCKS_PER_GROUP
  {
    DivMod(MAX_BLOCKS_PER_GROUP, groups, 0);
  }

  function GeoOf(l: Layout): Geo {
    Geo(l.fullGroups, l.blocksPerGroup, l.descBlocks, l.inodesPerGroup, l.tableBlocks)
  }

  /**
   * The calculation is sound for every disk with room: the regions fill a group exactly, all groups lie on
   * the disk, each bitmap fits one block, indexes fit 32 bits, and the data area is never smaller than
   * what the inodes were sized for, although both divisions round.
   */
  lemma LayoutSound(totalBlocks: nat)
    requires HasRoom(totalBlocks)
    ensures var l := BlockGroupCalculation(totalBlocks);
            && GeoOf(l).Ok()
            && 3 + l.descBlocks + l.dataBlocks + l.tableBlocks == l.blocksPerGroup
            && l.fullGroups * l.blocksPerGroup + l.lastGroup + 1 == totalBlocks && l.lastGroup < l.blocksPerGroup
            && GeoOf(l).Blocks() < totalBlocks
            && l.inodesPerGroup <= 8 * BLOCK_SIZE
            && l.dataBlocks * BLOCK_SIZE >= l.inodesPerGroup * BYTES_PER_INODE
  {
    var l := BlockGroupCalculation(totalBlocks);
    ExactGroup(l.fullGroups, MAX_BLOCKS_PER_GROUP * l.fullGroups);
    TableAndData(l.blocksPerGroup - 3 - l.descBlocks, l.inodesPerGroup, l.tableBlocks);
    InodeCount(l.fullGroups, l.inodesPerGroup, l.descBlocks);
    hide BlockGroupCalculation, Ceil;
  }

  lemma TableAndData(remain: nat, m: nat, t: nat)
    requires FIRST_INO * 2176 <= remain * 1024 && remain <= MAX_BLOCKS_PER_GROUP
    requires m == remain * 1024 / 2176 && t == Ceil(m * INODE_SIZE, BLOCK_SIZE)
    ensures FIRST_INO <= m <= MAX_BLOCKS_PER_GROUP && t <= remain
    ensures (remain - t) * BLOCK_SIZE >= m * BYTES_PER_INODE
  {
    assert m * 2176 <= remain * 1024;
    assert 1024 * t < m * 128 + 1024;
  }

  lemma InodeCount(groups: nat, m: nat, desc: nat)
    requires m <= MAX_BLOCKS_PER_GROUP && desc <= MAX_BLOCKS_PER_GROUP && groups * 32 <= 1024 * desc
    ensures groups * m < 0x1_0000_0000
  {
    assert groups * m <= groups * MAX_BLOCKS_PER_GROUP;
  }

  /** The disk of the repository's configuration: 64 MB and 3 KB, in 8 full groups. */
  lemma ConfiguredDisk()
    ensures HasRoom(65539)
    ensures BlockGroupCalculation(65539) == Layout(8, 9, 8192, 2, 1, 3853, 482, 7706)
  {
    assert Ceil(256, 1024) == 1;
  }

  // ----- indexes of a group's structures -----

  /** The group after group `i`, cyclically. */
  function Next(g: Geo, i: nat): (r: nat)
    requires i < g.groups
    ensures r < g.groups && r == if i + 1 < g.groups then i + 1 else 0
  {
    (i + 1) % g.groups
  }

  /** The number of blocks before group `i`, not counting the boot block. */
  function BlockBase(g: Geo, i: nat): nat {
    i * g.blocksPerGroup
  }

  /** The number of inodes before group `i`. */
  function InodeBase(g: Geo, i: nat): nat {
    i * g.inodesPerGroup
  }

  function GroupIndex(g: Geo, i: nat): nat {
    BlockBase(g, i) + 1
  }

  function SuperBlockIndex(g: Geo, i: nat): nat {
    GroupIndex(g, i) + 0
  }

  function DescTableIndex(g: Geo, i: nat): nat {
    GroupIndex(g, i) + 1
  }

  function BlockBitmapIndex(g: Geo, i: nat): nat {
    DescTableIndex(g, i) + g.descBlocks
  }

  function InodeBitmapIndex(g: Geo, i: nat): nat {
    BlockBitmapIndex(g, i) + 1
  }

  function InodeTableIndex(g: Geo, i: nat): nat {
    InodeBitmapIndex(g, i) + 1
  }

  function DataTableIndex(g: Geo, i: nat): nat {
    InodeTableIndex(g, i) + g.tableBlocks
  }

  // ----- the regions tile the disk -----

  datatype Region = SuperBlock | DescTable(k: nat) | BlockBitmap | InodeBitmap | InodeTable(k: nat) | Data(k: nat)

  predicate RegionOk(g: Geo, r: Region) {
    match r
    case DescTable(k) => k < g.descBlocks
    case InodeTable(k) => k < g.tableBlocks
    case Data(k) => k < g.DataBlocks()
    case _ => true
  }

  /** The block where a piece of group `i` lies, by the code's index functions. */
  function Address(g: Geo, i: nat, r: Region): nat {
    match r
    case SuperBlock => SuperBlockIndex(g, i)
    case DescTable(k) => DescTableIndex(g, i) + k
    case BlockBitmap => BlockBitmapIndex(g, i)
    case InodeBitmap => InodeBitmapIndex(g, i)
    case InodeTable(k) => InodeTableIndex(g, i) + k
    case Data(k) => DataTableIndex(g, i) + k
  }

  /** The group and the piece of it that a block belongs to. */
  function Locate(g: Geo, b: nat): (nat, Region)
    requires g.Ok() && 1 <= b <= g.Blocks()
  {
    var offset := (b - 1) % g.blocksPerGroup;
    ((b - 1) / g.blocksPerGroup,
     if offset == 0 then SuperBlock
     else if offset < 1 + g.descBlocks then DescTable(offset - 1)
     else if offset == 1 + g.descBlocks then BlockBitmap
     else if offset == 2 + g.descBlocks then InodeBitmap
     else if offset < g.MetaBlocks() then InodeTable(offset - 3 - g.descBlocks)
     else Data(offset - g.MetaBlocks()))
  }

  lemma DivMod(q: nat, d: nat, r: nat)
    requires r < d
    ensures (q * d + r) / d == q && (q * d + r) % d == r
  {
    var x := q * d + r;
    assert d * (x / d - q) == d * (x / d) - d * q == r - x % d;
    Multiple(d, x / d - q);
  }

  lemma Multiple(d: int, k: int)
    requires d >= 0
    ensures k >= 1 ==> d * k >= d
    ensures k <= -1 ==> d * k <= -d
  {
  }

  lemma DivBound(x: nat, d: nat, n: nat)
    requires d > 0 && x < n * d
    ensures x / d < n && x == x / d * d + x % d && 0 <= x % d < d
  {
  }

  /** The group of the `x`-th thing when every group has `d`, and its index in the group. */
  function Cut(x: nat, d: nat, n: nat): (r: (nat, nat))
    requires d > 0 && x < n * d
    ensures r.0 < n && r.1 < d && r.0 * d + r.1 == x
  {
    DivBound(x, d, n);
    (x / d, x % d)
  }

  lemma GroupWithin(g: Geo, i: nat)
    requires i < g.groups
    ensures BlockBase(g, i) + g.blocksPerGroup <= g.Blocks()
    ensures InodeBase(g, i) + g.inodesPerGroup <= g.Inodes()
  {
    assert (i + 1) * g.blocksPerGroup <= g.groups * g.blocksPerGroup;
    assert (i + 1) * g.inodesPerGroup <= g.groups * g.inodesPerGroup;
  }

  /** Every piece of every group lies in blocks 1..n*blocks_per_group, and no two pieces share a block. */
  lemma AddressLocated(g: Geo, i: nat, r: Region)
    requires g.Ok() && i < g.groups && RegionOk(g, r)
    ensures 1 <= Address(g, i, r) <= g.Blocks()
    ensures Locate(g, Address(g, i, r)) == (i, r)
  {
    GroupWithin(g, i);
    var offset := Address(g, i, r) - GroupIndex(g, i);
    DivMod(i, g.blocksPerGroup, offset);
  }

  /** Every block 1..n*blocks_per_group is a piece of some group. */
  lemma LocatedAddress(g: Geo, b: nat)
    requires g.Ok() && 1 <= b <= g.Blocks()
    ensures var (i, r) := Locate(g, b);
            i < g.groups && RegionOk(g, r) && Address(g, i, r) == b
  {
    DivBound(b - 1, g.blocksPerGroup, g.groups);
  }

  predicate IsData(g: Geo, b: nat) {
    g.Ok() && 1 <= b <= g.Blocks() && Locate(g, b).1.Data?
  }

  // ----- inode numbers -----

  function InodeGroup(g: Geo, ino: nat): nat
    requires g.inodesPerGroup > 0 && ino >= 1
  {
    (ino - 1) / g.inodesPerGroup
  }

  /** The table block and the slot in it where the code looks for an inode. */
  function InodePlace(g: Geo, ino: nat): (nat, nat)
    requires g.inodesPerGroup > 0 && ino >= 1
  {
    var ind := (ino - 1) % g.inodesPerGroup;
    (InodeTableIndex(g, InodeGroup(g, ino)) + ind / INODES_PER_BLOCK, ind % INODES_PER_BLOCK)
  }

  /** Every inode number has its own slot, inside the table of its own group. */
  lemma InodePlaceInTable(g: Geo, ino: nat)
    requires g.Ok() && 1 <= ino <= g.Inodes()
    ensures var (b, slot) := InodePlace(g, ino);
            var k := (ino - 1) % g.inodesPerGroup / INODES_PER_BLOCK;
            && InodeGroup(g, ino) < g.groups && k < g.tableBlocks && slot < INODES_PER_BLOCK
            && b == Address(g, InodeGroup(g, ino), InodeTable(k))
            && 1 <= b <= g.Blocks() && Locate(g, b) == (InodeGroup(g, ino), InodeTable(k))
  {
    DivBound(ino - 1, g.inodesPerGroup, g.groups);
    AddressLocated(g, InodeGroup(g, ino), InodeTable((ino - 1) % g.inodesPerGroup / INODES_PER_BLOCK));
  }

  lemma InodePlaceInjective(g: Geo, ino: nat, jno: nat)
    requires g.Ok() && 1 <= ino <= g.Inodes() && 1 <= jno <= g.Inodes()
    ensures InodePlace(g, ino) == InodePlace(g, jno) ==> ino == jno
  {
    InodePlaceInTable(g, ino);
    InodePlaceInTable(g, jno);
    DivBound(ino - 1, g.inodesPerGroup, g.groups);
    DivBound(jno - 1, g.inodesPerGroup, g.groups);
    if InodePlace(g, ino) == InodePlace(g, jno) {
      assert InodeGroup(g, ino) == InodeGroup(g, jno);
    }
  }

  /**
   * The group hint of the allocators is the inode number divided by the inodes per group, without the
   * minus one: it names a group exactly when the number is not the very last one.
   */
  lemma HintNamesAGroup(g: Geo, ino: nat)
    requires g.Ok() && 1 <= ino <= g.Inodes()
    ensures ino / g.inodesPerGroup < g.groups <==> ino != g.Inodes()
  {
    if ino < g.Inodes() {
      DivBound(ino, g.inodesPerGroup, g.groups);
    } else {
      DivMod(g.groups, g.inodesPerGroup, 0);
    }
  }
}
