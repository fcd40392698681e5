/** Where each field lies on the disk: the layout of the ext2 structures, byte by byte. */
module DiskFormat {
  import opened Bytes
  import opened Geometry
  import opened Inodes
  import opened DirRecords
  import B = DirBlock
  import BitMap
  import S = SuperBlock

  /** Two bytes as a number, the low one first. */
  function Two(b: seq<byte>, o: nat): nat
    requires o + 2 <= |b|
  {
    b[o] as nat + 256 * b[o + 1] as nat
  }

  /** Four bytes as a number, the low ones first. */
  function Four(b: seq<byte>, o: nat): nat
    requires o + 4 <= |b|
  {
    Two(b, o) + 65536 * Two(b, o + 2)
  }

  // ----- bitmaps -----

  /** The bits of a bitmap's byte are its binary digits, the most significant first. */
  lemma DigitsOfByte(bytes: seq<byte>, k: nat)
    requires k < |bytes|
    ensures var bits := BitMap.Bits(bytes, 8 * |bytes|);
            bytes[k] as nat == (if bits[8 * k] then 128 else 0) + (if bits[8 * k + 1] then 64 else 0)
                               + (if bits[8 * k + 2] then 32 else 0) + (if bits[8 * k + 3] then 16 else 0)
                               + (if bits[8 * k + 4] then 8 else 0) + (if bits[8 * k + 5] then 4 else 0)
                               + (if bits[8 * k + 6] then 2 else 0) + (if bits[8 * k + 7] then 1 else 0)
  {
    var bits := BitMap.Bits(bytes, 8 * |bytes|);
    forall j: nat | j < 8 ensures bits[8 * k + j] == BitMap.Bit(bytes[k], j) {
      assert (8 * k + j) / 8 == k && (8 * k + j) % 8 == j;
    }
    hide BitMap.Bits;
    BinaryDigits(bytes[k]);
  }

  lemma BinaryDigits(b: byte)
    ensures b as nat == (if BitMap.Bit(b, 0) then 128 else 0) + (if BitMap.Bit(b, 1) then 64 else 0)
                        + (if BitMap.Bit(b, 2) then 32 else 0) + (if BitMap.Bit(b, 3) then 16 else 0)
                        + (if BitMap.Bit(b, 4) then 8 else 0) + (if BitMap.Bit(b, 5) then 4 else 0)
                        + (if BitMap.Bit(b, 6) then 2 else 0) + (if BitMap.Bit(b, 7) then 1 else 0)
  {
    hide High, BitMap.Bit;
    HighEnds(b);
    NextDigit(b, 1);
    NextDigit(b, 2);
    NextDigit(b, 3);
    NextDigit(b, 4);
    NextDigit(b, 5);
    NextDigit(b, 6);
    NextDigit(b, 7);
  }

  /** The number that the bits up to the `k`-th stand for. */
  function High(b: nat, k: nat): nat
    requires k < 8
  {
    b / BitMap.Mask(k)
  }

  lemma HighEnds(b: byte)
    ensures High(b, 0) == (if BitMap.Bit(b, 0) then 1 else 0) && High(b, 7) == b
  {
  }

  lemma NextDigit(b: nat, k: nat)
    requires 0 < k < 8
    ensures High(b, k) == 2 * High(b, k - 1) + if BitMap.Bit(b, k) then 1 else 0
  {
    assert BitMap.Mask(k - 1) == 2 * BitMap.Mask(k);
    HalfOf(b, BitMap.Mask(k));
  }

  lemma HalfOf(b: nat, m: nat)
    requires m > 0
    ensures b / m == 2 * (b / (2 * m)) + b / m % 2
  {
    var q, r := b / m, b % m;
    assert b == q / 2 * (2 * m) + (q % 2 * m + r);
    DivMod(q / 2, 2 * m, q % 2 * m + r);
  }

  // ----- inodes -----

  /** Inode `slot` of a table block takes up 128 bytes. */
  lemma InodeFields(b: Block, slot: nat)
    requires slot < 8
    ensures var i, o := SlotInode(b, slot), 128 * slot;
            && i.mode == Two(b, o) && i.uid == Two(b, o + 2) && i.size == Four(b, o + 4) && i.atime == Four(b, o + 8)
            && i.ctime == Four(b, o + 12) && i.mtime == Four(b, o + 16) && i.dtime == Four(b, o + 20)
            && i.gid == Two(b, o + 24) && i.links == Two(b, o + 26) && i.blocks == Four(b, o + 28)
            && i.flags == Four(b, o + 32) && i.osd1 == Four(b, o + 36)
            && |i.block| == 15 && forall k :: 0 <= k < 15 ==> i.block[k] == Four(b, o + 40 + 4 * k)
  {
    Halves(b, 128 * slot);
    Halves(b, 128 * slot + 24);
  }

  lemma Halves(b: seq<byte>, o: nat)
    requires o + 4 <= |b|
    ensures Le32(b, o) == Four(b, o) && Le32(b, o) % 0x1_0000 == Two(b, o) && Le32(b, o) / 0x1_0000 == Two(b, o + 2)
  {
    DivMod(Two(b, o + 2), 0x1_0000, Two(b, o));
  }

  // ----- directory blocks -----

  /** A record: inode, record length, name length, type and name. */
  predicate RecordBytes(b: Block, o: nat, inode: nat, recLen: nat, fileType: nat, name: Name) {
    && o + 8 + |name| <= 1024 && Four(b, o) == inode && Two(b, o + 4) == recLen && b[o + 6] as nat == |name|
    && b[o + 7] as nat == fileType && forall k :: 0 <= k < |name| ==> b[o + 8 + k] == name[k]
  }

  /** A new block: "." with 12 bytes, and ".." with the rest. */
  lemma NewBlockBytes(inode: nat, father: nat)
    requires inode < 0x1_0000_0000 && father < 0x1_0000_0000
    ensures var b := B.InitBlock(inode, father);
            RecordBytes(b, 0, inode, 12, 2, [46]) && RecordBytes(b, 12, father, 1012, 2, [46, 46])
  {
    hide B.InitBlock;
    B.InitBlockRecords(inode, father);
    var b := B.InitBlock(inode, father);
    FirstRecords(b, InitRecs(inode, father));
  }

  lemma FirstRecords(b: Block, recs: seq<Rec>)
    requires B.Chain(b, 0) && B.Parse(b, 0) == recs && |recs| == 2
    ensures B.RecordAt(b, 0, recs[0]) && B.RecordAt(b, recs[0].recLen, recs[1])
  {
    B.ParseTiles(b, 0);
    hide B.RecordAt;
    assert B.Tiles(b, recs[0].recLen, recs[1..], BLOCK_SIZE);
  }

  /** A record takes up its 8 bytes, its name and a NUL, rounded up to a multiple of four. */
  lemma RecordSize(nameLen: nat)
    ensures Need(nameLen) % 4 == 0 && nameLen + 9 <= Need(nameLen) < nameLen + 13
  {
  }

  // ----- the super block -----

  /** A disk is recognised by six fields of its super block. */
  lemma RecognisedBy(b: Block)
    ensures S.IsExt2(b) <==>
            && b[56] == 0x53 && b[57] == 0xEF && Four(b, 24) == 0 && Four(b, 20) == 1 && Four(b, 40) <= 8192
            && Four(b, 84) == 11 && Two(b, 88) == 128
  {
  }

  /** The geometry that a mount reads. */
  lemma ReadFields(b: Block)
    requires Four(b, 40) > 0
    ensures var g := S.ReadGeo(b);
            && g.groups == Four(b, 0) / Four(b, 40) && g.blocksPerGroup == Four(b, 32)
            && g.inodesPerGroup == Four(b, 40)
            && 32 * g.groups <= 1024 * g.descBlocks < 32 * g.groups + 1024
            && 128 * g.inodesPerGroup <= 1024 * g.tableBlocks < 128 * g.inodesPerGroup + 1024
  {
    hide Le16;
  }

  lemma WordFields(g: Geo, now: nat, rest: seq<byte>, k: nat)
    requires g.Ok() && Word(now) && |rest| == BLOCK_SIZE - 92 && k < 23
    ensures var b := S.SuperBlockOf(g, now, rest);
            && Four(b, 4 * k) == S.SuperWords(g, now)[k] && Two(b, 4 * k) == S.SuperWords(g, now)[k] % 0x1_0000
            && Two(b, 4 * k + 2) == S.SuperWords(g, now)[k] / 0x1_0000
  {
    hide S.SuperBlockOf, S.SuperWords, Le32, Two, Four, Geo.Ok;
    S.SuperWordAt(g, now, rest, k);
    Halves(S.SuperBlockOf(g, now, rest), 4 * k);
  }

  /** The sizes that formatting writes into the super block. */
  lemma FormattedSizes(g: Geo, now: nat, rest: seq<byte>)
    requires g.Ok() && Word(now) && |rest| == BLOCK_SIZE - 92
    ensures var b := S.SuperBlockOf(g, now, rest);
            && Four(b, 0) == g.groups * g.inodesPerGroup && Four(b, 4) == g.groups * g.blocksPerGroup && Four(b, 8) == 0
            && Four(b, 12) == g.groups * g.DataBlocks() && Four(b, 16) == g.groups * g.inodesPerGroup
            && Four(b, 20) == 1 && Four(b, 24) == 0 && Four(b, 28) == 0 && Four(b, 32) == 8192 && Four(b, 36) == 8192
            && Four(b, 40) == g.inodesPerGroup
  {
    assert g.blocksPerGroup == 8192;
    SizeWords(g, now);
    hide S.SuperBlockOf, S.SuperWords, Le32, Two, Four, Geo.Ok;
    forall k: nat | k < 11 ensures Four(S.SuperBlockOf(g, now, rest), 4 * k) == S.SuperWords(g, now)[k] {
      WordFields(g, now, rest, k);
    }
  }

  lemma SizeWords(g: Geo, now: nat)
    requires g.Ok() && Word(now)
    ensures var ws := S.SuperWords(g, now);
            && ws[0] == g.groups * g.inodesPerGroup && ws[1] == g.groups * g.blocksPerGroup && ws[2] == 0
            && ws[3] == g.groups * g.DataBlocks() && ws[4] == g.groups * g.inodesPerGroup && ws[5] == 1 && ws[6] == 0
            && ws[7] == 0 && ws[8] == g.blocksPerGroup && ws[9] == g.blocksPerGroup && ws[10] == g.inodesPerGroup
  {
  }

  /** The times, the signature and the other constants that formatting writes into the super block. */
  lemma FormattedConstants(g: Geo, now: nat, rest: seq<byte>)
    requires g.Ok() && Word(now) && |rest| == BLOCK_SIZE - 92
    ensures var b := S.SuperBlockOf(g, now, rest);
            && Four(b, 44) == now && Four(b, 48) == now && Two(b, 52) == 0 && Two(b, 54) == 1024
            && Two(b, 56) == 0xEF53 && Two(b, 58) == 1 && Two(b, 60) == 1 && Two(b, 62) == 0 && Four(b, 64) == now
            && Four(b, 68) == 0xFFFF_FFFF && Four(b, 72) == 0 && Four(b, 76) == 0 && Four(b, 80) == 0
            && Four(b, 84) == 11 && Two(b, 88) == 128 && Two(b, 90) == 0
  {
    ConstantWords(g, now);
    hide S.SuperBlockOf, S.SuperWords, Le32, Two, Four, Geo.Ok;
    WordFields(g, now, rest, 11);
    WordFields(g, now, rest, 12);
    WordFields(g, now, rest, 13);
    WordFields(g, now, rest, 14);
    WordFields(g, now, rest, 15);
    WordFields(g, now, rest, 16);
    WordFields(g, now, rest, 17);
    WordFields(g, now, rest, 18);
    WordFields(g, now, rest, 19);
    WordFields(g, now, rest, 20);
    WordFields(g, now, rest, 21);
    WordFields(g, now, rest, 22);
  }

  lemma ConstantWords(g: Geo, now: nat)
    requires g.Ok() && Word(now)
    ensures var ws := S.SuperWords(g, now);
            && ws[11] == now && ws[12] == now && ws[13] == 0x400_0000 && ws[14] == 0x1_EF53 && ws[15] == 1
            && ws[16] == now && ws[17] == 0xFFFF_FFFF && ws[18] == 0 && ws[19] == 0 && ws[20] == 0 && ws[21] == 11
            && ws[22] == 128
  {
  }

  // ----- block groups -----

  /** Where the structures of the configured disk lie. */
  lemma ConfiguredAddresses()
    ensures HasRoom(65539)
    ensures var g := GeoOf(BlockGroupCalculation(65539));
            && Address(g, 0, SuperBlock) == 1 && Address(g, 0, DescTable(0)) == 2 && Address(g, 0, BlockBitmap) == 3
            && Address(g, 0, InodeBitmap) == 4 && Address(g, 0, InodeTable(0)) == 5 && Address(g, 0, Data(0)) == 487
            && Address(g, 1, SuperBlock) == 8193 && Address(g, 7, Data(7705)) == 65536
  {
    ConfiguredDisk();
  }
}
