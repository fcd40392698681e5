/** The super block: what formatting writes into it, and what mounting reads back. */
module SuperBlock {
  import opened Bytes
  import opened Geometry
  import opened Inodes

  const SUPER_MAGIC: nat := 0xEF53
  const VALID_STATE: nat := 1
  const ERRORS_CONTINUE: nat := 1
  const MAX_MOUNTS: nat := 1024

  /** The first 92 bytes as words; two 16-bit fields that share a word are given low half first. */
  function SuperWords(g: Geo, now: nat): (ws: seq<nat>)
    requires g.Ok() && Word(now)
    ensures |ws| == 23 && forall k :: 0 <= k < 23 ==> Word(ws[k])
  {
    FreeBlocksFit(g);
    [g.Inodes(), g.Blocks(), 0, g.groups * g.DataBlocks(), g.Inodes(), 1, 0, 0, g.blocksPerGroup, g.blocksPerGroup,
     g.inodesPerGroup, now, now, 0x1_0000 * MAX_MOUNTS, SUPER_MAGIC + 0x1_0000 * VALID_STATE, ERRORS_CONTINUE, now,
     0xFFFF_FFFF, 0, 0, 0, FIRST_INO, INODE_SIZE]
  }

  lemma FreeBlocksFit(g: Geo)
    requires g.Ok()
    ensures 0 <= g.groups * g.DataBlocks() <= g.Blocks()
  {
    assert g.groups * g.DataBlocks() <= g.groups * g.blocksPerGroup;
  }

  /** The super block; `rest` stands for the volume's name and other fields that are not read again. */
  function SuperBlockOf(g: Geo, now: nat, rest: seq<byte>): (b: Block)
    requires g.Ok() && Word(now) && |rest| == BLOCK_SIZE - 92
  {
    WordBytes(SuperWords(g, now)) + rest
  }

  /** What a mount looks at to recognise a formatted disk. */
  predicate IsExt2(b: Block) {
    && Le16(b, 56) == SUPER_MAGIC && Le32(b, 24) == 0 && Le32(b, 20) == 1 && Le32(b, 40) <= 8 * BLOCK_SIZE
    && Le32(b, 84) == FIRST_INO && Le16(b, 88) == INODE_SIZE
  }

  /** The geometry fields that a mount computes from the super block. */
  function ReadGeo(b: Block): Geo
    requires Le32(b, 40) > 0
  {
    var perGroup := Le32(b, 40);
    var groups := Le32(b, 0) / perGroup;
    Geo(groups, Le32(b, 32), Ceil(groups * GROUP_DESC_SIZE, BLOCK_SIZE), perGroup,
        Ceil(perGroup * INODE_SIZE, BLOCK_SIZE))
  }

  /** The super block describes a disk with this geometry. */
  ghost predicate Describes(b: Block, g: Geo) {
    IsExt2(b) && Le32(b, 40) > 0 && ReadGeo(b) == g
  }

  lemma LowHalf(b: seq<byte>, o: nat)
    requires o + 4 <= |b|
    ensures Le16(b, o) == Le32(b, o) % 0x1_0000
  {
    var third: nat, fourth: nat := b[o + 2], b[o + 3];
    DivMod(third + 0x100 * fourth, 0x1_0000, Le16(b, o));
  }

  lemma SuperWordAt(g: Geo, now: nat, rest: seq<byte>, k: nat)
    requires g.Ok() && Word(now) && |rest| == BLOCK_SIZE - 92 && k < 23
    ensures Le32(SuperBlockOf(g, now, rest), 4 * k) == SuperWords(g, now)[k]
  {
    hide SuperWords, WordBytes, Geo.Ok, Splice;
    var ws := SuperWords(g, now);
    assert SuperBlockOf(g, now, rest) == Splice(ZeroBlock()[..92] + rest, 0, WordBytes(ws));
    hide SuperBlockOf, Le32;
    WordRoundTrip(ZeroBlock()[..92] + rest, 0, ws, k);
  }

  lemma SuperValues(g: Geo, now: nat)
    requires g.Ok() && Word(now)
    ensures var ws := SuperWords(g, now);
            && ws[0] == g.Inodes() && ws[5] == 1 && ws[6] == 0 && ws[8] == g.blocksPerGroup
               && ws[10] == g.inodesPerGroup
            && ws[14] % 0x1_0000 == SUPER_MAGIC && ws[21] == FIRST_INO && ws[22] == INODE_SIZE
  {
  }

  /** The fields that formatting writes, as a mount reads them. */
  lemma FieldsRead(g: Geo, now: nat, rest: seq<byte>)
    requires g.Ok() && Word(now) && |rest| == BLOCK_SIZE - 92
    ensures var b := SuperBlockOf(g, now, rest);
            && Le32(b, 0) == g.Inodes() && Le32(b, 20) == 1 && Le32(b, 24) == 0 && Le32(b, 32) == g.blocksPerGroup
            && Le32(b, 40) == g.inodesPerGroup && Le16(b, 56) == SUPER_MAGIC
            && Le32(b, 84) == FIRST_INO && Le16(b, 88) == INODE_SIZE
  {
    hide SuperWords, SuperBlockOf, Le32, Le16, Geo.Ok, Geo.Inodes;
    var b := SuperBlockOf(g, now, rest);
    SuperValues(g, now);
    SuperWordAt(g, now, rest, 0);
    SuperWordAt(g, now, rest, 5);
    SuperWordAt(g, now, rest, 6);
    SuperWordAt(g, now, rest, 8);
    SuperWordAt(g, now, rest, 10);
    SuperWordAt(g, now, rest, 14);
    SuperWordAt(g, now, rest, 21);
    SuperWordAt(g, now, rest, 22);
    LowHalf(b, 56);
    LowHalf(b, 88);
  }

  /** What formatting writes is recognised, and the geometry is recovered, the group count by a division. */
  lemma FormattedIsRecognised(g: Geo, now: nat, rest: seq<byte>)
    requires g.Ok() && Word(now) && |rest| == BLOCK_SIZE - 92
    ensures Describes(SuperBlockOf(g, now, rest), g)
  {
    hide SuperBlockOf, Le32, Le16, Ceil;
    FieldsRead(g, now, rest);
    DivMod(g.groups, g.inodesPerGroup, 0);
  }
}
