/**
 * The file system as one value: what the bitmaps, inode tables and data blocks mean, with the functions
 * that the operations on the disk are proved to follow.
 */
module Fs {
  import opened Bytes
  import opened Geometry
  import opened Inodes
  import opened DirRecords
  import B = DirBlock
  import P = PointerTree

  const POINTERS_PER_BLOCK: nat := 256

  datatype Fs = Fs(
    g: Geo,
    super: Block,                // the first copy of the super block
    blockBits: seq<bool>,        // of block b at index b - 1
    inodeBits: seq<bool>,        // of inode n at index n - 1
    inodes: seq<Inode>,          // inode n at index n - 1
    data: map<nat, Block>)       // the blocks of the data regions

  ghost predicate Ok(fs: Fs) {
    && fs.g.Ok()
    && |fs.blockBits| == fs.g.Blocks()
    && |fs.inodeBits| == fs.g.Inodes() == |fs.inodes|
    && (forall i :: 0 <= i < |fs.inodes| ==> InodeOk(fs.inodes[i]))
    && (forall b :: b in fs.data <==> IsData(fs.g, b))
  }

  predicate IsInode(fs: Fs, ino: nat) {
    1 <= ino <= |fs.inodes|
  }

  function GetInode(fs: Fs, ino: nat): Inode
    requires IsInode(fs, ino)
  {
    fs.inodes[ino - 1]
  }

  function PutInode(fs: Fs, ino: nat, i: Inode): Fs
    requires IsInode(fs, ino)
  {
    fs.(inodes := fs.inodes[ino - 1 := i])
  }

  function PutData(fs: Fs, b: nat, block: Block): Fs {
    fs.(data := fs.data[b := block])
  }

  // ----- block allocation -----

  /** The free blocks with bit positions from `lo` to `hi`, in increasing order. */
  function FreeIn(bits: seq<bool>, lo: nat, hi: nat): seq<nat>
    requires lo <= hi <= |bits|
    decreases hi - lo, bits
  {
    if lo == hi then []
    else if bits[lo] then FreeIn(bits, lo + 1, hi)
    else [lo + 1] + FreeIn(bits, lo + 1, hi)
  }

  function GroupFree(g: Geo, bits: seq<bool>, i: nat): seq<nat>
    requires i < g.groups && |bits| == g.Blocks()
  {
    GroupWithin(g, i);
    FreeIn(bits, BlockBase(g, i), BlockBase(g, i) + g.blocksPerGroup)
  }

  /** The free blocks of `n` groups from group `i` on, wrapping around. */
  function ScanFree(g: Geo, bits: seq<bool>, i: nat, n: nat): seq<nat>
    requires i < g.groups && |bits| == g.Blocks()
    decreases n, bits
  {
    if n == 0 then [] else GroupFree(g, bits, i) + ScanFree(g, bits, Next(g, i), n - 1)
  }

  /** The free blocks that an allocation with this group hint can find, in the order in which it finds them. */
  function FreeFrom(fs: Fs, group: nat): seq<nat>
    requires fs.g.Ok() && group < fs.g.groups && |fs.blockBits| == fs.g.Blocks()
  {
    ScanFree(fs.g, fs.blockBits, group, fs.g.groups - 1)
  }

  function Marked(bits: seq<bool>, blocks: seq<nat>): (r: seq<bool>)
    ensures |r| == |bits|
  {
    seq(|bits|, j requires 0 <= j < |bits| => bits[j] || j + 1 in blocks)
  }

  function MarkBlocks(fs: Fs, blocks: seq<nat>): Fs {
    fs.(blockBits := Marked(fs.blockBits, blocks))
  }

  predicate CanAllocate(fs: Fs, group: nat, count: nat) {
    && fs.g.Ok() && group < fs.g.groups && |fs.blockBits| == fs.g.Blocks()
    && 1 <= count <= |FreeFrom(fs, group)|
  }

  function Ballocs(fs: Fs, group: nat, count: nat): (seq<nat>, Fs)
    requires CanAllocate(fs, group, count)
  {
    (FreeFrom(fs, group)[..count], MarkBlocks(fs, FreeFrom(fs, group)[..count]))
  }

  function Bfree(fs: Fs, b: nat): Fs
    requires b <= |fs.blockBits|
  {
    if b == 0 then fs else fs.(blockBits := fs.blockBits[b - 1 := false])
  }

  // ----- inode allocation -----

  /** The first inode number from `ino` on with a clear bit; 0 if there is none. */
  function NextFreeInode(bits: seq<bool>, ino: nat): (r: nat)
    requires ino >= 1
    ensures r != 0 ==> ino <= r <= |bits| && !bits[r - 1]
    ensures forall j :: ino - 1 <= j < (if r == 0 then |bits| else r - 1) ==> bits[j]
    decreases |bits| + 1 - ino
  {
    if ino > |bits| then 0 else if !bits[ino - 1] then ino else NextFreeInode(bits, ino + 1)
  }

  function Ialloc(fs: Fs): (nat, Fs) {
    var ino := NextFreeInode(fs.inodeBits, FIRST_INO);
    if ino == 0 then (0, fs) else (ino, fs.(inodeBits := fs.inodeBits[ino - 1 := true]))
  }

  // ----- block lists of inodes -----

  /** The pointers stored in a block of the data regions. */
  function Pointers(fs: Fs, b: nat): (r: seq<nat>)
    ensures |r| == POINTERS_PER_BLOCK
  {
    if b in fs.data then WordsAt(fs.data[b], 0, POINTERS_PER_BLOCK) else seq(POINTERS_PER_BLOCK, _ => 0)
  }

  function PointerMap(fs: Fs): nat -> seq<nat> {
    b => Pointers(fs, b)
  }

  /** Every pointer block below `b` lies in a data region. */
  ghost predicate TreeOk(fs: Fs, b: nat, level: nat)
    decreases level, fs
  {
    b == 0 || level == 0
    || (b in fs.data && forall k :: 0 <= k < POINTERS_PER_BLOCK ==> TreeOk(fs, Pointers(fs, b)[k], level - 1))
  }

  lemma Child(fs: Fs, b: nat, level: nat, k: nat)
    requires TreeOk(fs, b, level) && b != 0 && level > 0 && k < POINTERS_PER_BLOCK
    ensures b in fs.data && Pointers(fs, b)[k] == Le32(fs.data[b], 4 * k) && TreeOk(fs, Pointers(fs, b)[k], level - 1)
  {
    hide Le32;
  }

  ghost predicate TreesOk(fs: Fs, i: Inode) {
    |i.block| == N_BLOCKS && TreeOk(fs, i.block[12], 1) && TreeOk(fs, i.block[13], 2) && TreeOk(fs, i.block[14], 3)
  }

  lemma RootTree(fs: Fs, i: Inode, k: nat)
    requires TreesOk(fs, i) && k < N_BLOCKS
    ensures TreeOk(fs, i.block[k], P.LevelOf(k))
  {
  }

  function AllBlocks(fs: Fs, ino: nat): seq<nat>
    requires IsInode(fs, ino)
  {
    P.Enumerate(PointerMap(fs), GetInode(fs, ino).block)
  }

  /** The inode uses direct pointers only: a run of nonzero ones, then zeros. */
  predicate DirectOnly(i: Inode) {
    && |i.block| == N_BLOCKS
    && |Direct(i)| <= DIRECT_BLOCKS
    && forall k :: |Direct(i)| <= k < N_BLOCKS ==> i.block[k] == 0
  }

  /** The leading nonzero pointers. */
  function Direct(i: Inode): seq<nat> {
    P.UpToZero(i.block)
  }

  lemma FirstZero(i: Inode)
    requires |Direct(i)| < |i.block|
    ensures i.block[|Direct(i)|] == 0 && forall k :: 0 <= k < |Direct(i)| ==> i.block[k] != 0
  {
    assert forall k :: 0 <= k < |Direct(i)| ==> i.block[k] == Direct(i)[k] && Direct(i)[k] in Direct(i);
  }

  lemma AllBlocksDirect(fs: Fs, ino: nat)
    requires IsInode(fs, ino) && DirectOnly(GetInode(fs, ino))
    ensures AllBlocks(fs, ino) == Direct(GetInode(fs, ino))
    ensures TreesOk(fs, GetInode(fs, ino))
  {
    var i := GetInode(fs, ino);
    P.DirectEnumeration(PointerMap(fs), i.block, |Direct(i)|);
    assert i.block[..|Direct(i)|] == Direct(i);
  }

  /** The group hint that the code derives from an inode number. */
  function Hint(fs: Fs, ino: nat): nat
    requires fs.g.inodesPerGroup > 0
  {
    ino / fs.g.inodesPerGroup
  }

  /** One more direct block can be given to the inode. */
  predicate CanAddBlock(fs: Fs, ino: nat) {
    && IsInode(fs, ino) && fs.g.Ok() && |Direct(GetInode(fs, ino))| < DIRECT_BLOCKS <= |GetInode(fs, ino).block|
    && CanAllocate(fs, Hint(fs, ino), 1)
  }

  /** `add_block_to_inode` in the direct range: the first zero pointer takes the first free block. */
  function AddBlock(fs: Fs, ino: nat): (nat, Fs)
    requires CanAddBlock(fs, ino)
  {
    var n := FreeFrom(fs, Hint(fs, ino))[0];
    var i := GetInode(fs, ino);
    (n, PutInode(MarkBlocks(fs, [n]), ino, i.(block := i.block[|Direct(i)| := n])))
  }

  // ----- directories -----

  predicate DirBlockOk(fs: Fs, b: nat) {
    b in fs.data && B.Chain(fs.data[b], 0)
  }

  predicate DirBlocksOk(fs: Fs, blocks: seq<nat>) {
    forall k :: 0 <= k < |blocks| ==> DirBlockOk(fs, blocks[k])
  }

  function RecsOf(fs: Fs, b: nat): seq<Rec>
    requires DirBlockOk(fs, b)
  {
    B.Parse(fs.data[b], 0)
  }

  /** Reads records into the list, leaving out "." and ".." once more than two entries were read. */
  function Collect(acc: seq<Entry>, recs: seq<Rec>): seq<Entry>
    decreases |recs|
  {
    if recs == [] then acc
    else if |acc| > 2 && IsDot(recs[0].name) then Collect(acc, recs[1..])
    else Collect(acc + [ToEntry(recs[0])], recs[1..])
  }

  function CollectBlocks(fs: Fs, acc: seq<Entry>, blocks: seq<nat>, i: nat): seq<Entry>
    requires DirBlocksOk(fs, blocks) && i <= |blocks|
    decreases |blocks| - i
  {
    if i == |blocks| then acc
    else CollectBlocks(fs, Collect(acc, RecsOf(fs, blocks[i])), blocks, i + 1)
  }

  /** `get_inode_all_entry`. */
  function AllEntries(fs: Fs, ino: nat): seq<Entry>
    requires IsInode(fs, ino) && DirBlocksOk(fs, AllBlocks(fs, ino))
  {
    CollectBlocks(fs, [], AllBlocks(fs, ino), 0)
  }

  function FindName(entries: seq<Entry>, name: Name): (k: nat)
    ensures k <= |entries|
    ensures k < |entries| ==> entries[k].name == name
    ensures forall j :: 0 <= j < k ==> entries[j].name != name
  {
    if entries == [] || entries[0].name == name then 0 else 1 + FindName(entries[1..], name)
  }

  /** `find_dir_from_inode` without creation. */
  function Find(fs: Fs, ino: nat, name: Name): Option<nat>
    requires IsInode(fs, ino) && DirBlocksOk(fs, AllBlocks(fs, ino))
  {
    var entries := AllEntries(fs, ino);
    var k := FindName(entries, name);
    if k == |entries| then None else Some(entries[k].inode)
  }

  predicate Takes(fs: Fs, b: nat, e: Entry)
    requires DirBlockOk(fs, b) && EntryOk(e)
  {
    B.AddEntry(fs.data[b], e).0
  }

  /** The first of the blocks, from the `i`-th on, that takes the entry. */
  function FirstTaker(fs: Fs, blocks: seq<nat>, e: Entry, i: nat): (k: nat)
    requires DirBlocksOk(fs, blocks) && EntryOk(e) && i <= |blocks|
    ensures i <= k <= |blocks|
    decreases |blocks| - i
  {
    if i == |blocks| || Takes(fs, blocks[i], e) then i else FirstTaker(fs, blocks, e, i + 1)
  }

  lemma {:induction false} FirstTakerMeans(fs: Fs, blocks: seq<nat>, e: Entry, i: nat)
    requires DirBlocksOk(fs, blocks) && EntryOk(e) && i <= |blocks|
    ensures var k := FirstTaker(fs, blocks, e, i);
            && (k < |blocks| ==> Takes(fs, blocks[k], e))
            && forall j :: i <= j < k ==> !Takes(fs, blocks[j], e)
    decreases |blocks| - i
  {
    hide Takes, B.Chain, EntryOk;
    if i < |blocks| && !Takes(fs, blocks[i], e) {
      FirstTakerMeans(fs, blocks, e, i + 1);
    }
  }

  /** The inode number of the first record called "..", as `get_father_inode_num` finds it. */
  function Father(recs: seq<Rec>): Option<nat> {
    if recs == [] then None else if recs[0].name == DOT_DOT then Some(recs[0].inode) else Father(recs[1..])
  }

  /** What `add_entry_to_inode` needs: readable blocks, and, when none takes the entry, room for a new one. */
  predicate CanAddEntry(fs: Fs, ino: nat, e: Entry) {
    && IsInode(fs, ino) && EntryOk(e) && ino < 0x1_0000_0000
    && DirBlocksOk(fs, AllBlocks(fs, ino))
    && (FirstTaker(fs, AllBlocks(fs, ino), e, 0) == |AllBlocks(fs, ino)| ==>
          && CanAddBlock(fs, ino)
          && GetInode(fs, ino).block[0] != 0 && DirBlockOk(fs, GetInode(fs, ino).block[0])
          && Father(RecsOf(fs, GetInode(fs, ino).block[0])).Some?)
  }

  function AddEntry(fs: Fs, ino: nat, e: Entry): Fs
    requires CanAddEntry(fs, ino, e)
  {
    var blocks := AllBlocks(fs, ino);
    var k := FirstTaker(fs, blocks, e, 0);
    if k < |blocks| then
      assert DirBlockOk(fs, blocks[k]);
      PutData(fs, blocks[k], B.AddEntry(fs.data[blocks[k]], e).1)
    else
      var (n, grown) := AddBlock(fs, ino);
      var father := Father(RecsOf(fs, GetInode(fs, ino).block[0])).value;
      PutData(grown, n, FirstEntry(ino, father, e))
  }

  /** A new directory block with one entry. */
  function FirstEntry(ino: nat, father: nat, e: Entry): Block
    requires EntryOk(e)
  {
    if ino < 0x1_0000_0000 && father < 0x1_0000_0000 then
      B.InitBlockRecords(ino, father);
      B.AddEntry(B.InitBlock(ino, father), e).1
    else B.InitBlock(ino, father)
  }

  /** The first of the blocks, from the `i`-th on, with a record for the inode. */
  function FirstHolder(fs: Fs, blocks: seq<nat>, target: nat, i: nat): (k: nat)
    requires DirBlocksOk(fs, blocks) && i <= |blocks|
    ensures i <= k <= |blocks|
    ensures k < |blocks| ==> FindInode(RecsOf(fs, blocks[k]), target) < |RecsOf(fs, blocks[k])|
    ensures forall j :: i <= j < k ==> FindInode(RecsOf(fs, blocks[j]), target) == |RecsOf(fs, blocks[j])|
    decreases |blocks| - i
  {
    if i == |blocks| || FindInode(RecsOf(fs, blocks[i]), target) < |RecsOf(fs, blocks[i])| then i
    else FirstHolder(fs, blocks, target, i + 1)
  }

  /** The inode has a record in the directory, and the first one is not "." or "..". */
  predicate CanFreeEntry(fs: Fs, ino: nat, target: nat) {
    && IsInode(fs, ino) && DirBlocksOk(fs, AllBlocks(fs, ino))
    && FirstHolder(fs, AllBlocks(fs, ino), target, 0) < |AllBlocks(fs, ino)|
    && forall k :: 0 <= k <= FirstHolder(fs, AllBlocks(fs, ino), target, 0) ==>
         NotFirst(RecsOf(fs, AllBlocks(fs, ino)[k]), target)
  }

  predicate NotFirst(recs: seq<Rec>, target: nat) {
    var k := FindInode(recs, target);
    k != 0 && (k < |recs| ==> !IsDot(recs[k].name))
  }

  function FreeEntry(fs: Fs, ino: nat, target: nat): Fs
    requires CanFreeEntry(fs, ino, target)
  {
    var b := AllBlocks(fs, ino)[FirstHolder(fs, AllBlocks(fs, ino), target, 0)];
    PutData(fs, b, B.FreeEntry(fs.data[b], target).1)
  }
}
