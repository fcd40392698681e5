/** Inodes as they lie in the inode table: 128 bytes, read and written as 32 little-endian words. */
module Inodes {
  import opened Bytes
  import opened Geometry

  const N_BLOCKS: nat := 15
  const DIRECT_BLOCKS: nat := 12

  /** An inode; `tail` keeps the words after the block pointers, which this program never reads. */
  datatype Inode = Inode(
    mode: nat, uid: nat, size: nat, atime: nat, ctime: nat, mtime: nat, dtime: nat,
    gid: nat, links: nat, blocks: nat, flags: nat, osd1: nat, block: seq<nat>, tail: seq<nat>)

  predicate Word(x: nat) {
    x < 0x1_0000_0000
  }

  /** Arithmetic on `uint32_t` wraps around. */
  function Wrap(x: int): (r: nat)
    ensures Word(r)
  {
    x % 0x1_0000_0000
  }

  predicate Half(x: nat) {
    x < 0x1_0000
  }

  predicate InodeOk(i: Inode) {
    && Half(i.mode) && Half(i.uid) && Word(i.size) && Word(i.atime) && Word(i.ctime) && Word(i.mtime)
    && Word(i.dtime) && Half(i.gid) && Half(i.links) && Word(i.blocks) && Word(i.flags) && Word(i.osd1)
    && |i.block| == N_BLOCKS && (forall k :: 0 <= k < N_BLOCKS ==> Word(i.block[k]))
    && |i.tail| == 7 && (forall k :: 0 <= k < 7 ==> Word(i.tail[k]))
  }

  // ----- words in bytes -----

  function WordsAt(b: seq<byte>, o: nat, n: nat): (ws: seq<nat>)
    requires o + 4 * n <= |b|
    ensures |ws| == n && forall k :: 0 <= k < n ==> Word(ws[k])
  {
    seq(n, k requires 0 <= k < n => Le32(b, o + 4 * k))
  }

  function WordBytes(ws: seq<nat>): (b: seq<byte>)
    ensures |b| == 4 * |ws|
  {
    seq(4 * |ws|, k requires 0 <= k < 4 * |ws| => Put32(ws[k / 4])[k % 4])
  }

  lemma WordBytesAt(ws: seq<nat>, k: nat, j: nat)
    requires k < |ws| && j < 4
    ensures WordBytes(ws)[4 * k + j] == Put32(ws[k])[j]
  {
  }

  lemma WordRoundTrip(b: seq<byte>, o: nat, ws: seq<nat>, k: nat)
    requires o + 4 * |ws| <= |b| && k < |ws| && Word(ws[k])
    ensures Le32(Splice(b, o, WordBytes(ws)), o + 4 * k) == ws[k]
  {
    hide WordBytes, Le32, Put32, Splice;
    WordBytesAt(ws, k, 0);
    WordBytesAt(ws, k, 1);
    WordBytesAt(ws, k, 2);
    WordBytesAt(ws, k, 3);
    SplicedWord(b, o, WordBytes(ws), 4 * k, ws[k]);
  }

  lemma WordsRoundTrip(b: seq<byte>, o: nat, ws: seq<nat>)
    requires o + 4 * |ws| <= |b| && forall k :: 0 <= k < |ws| ==> Word(ws[k])
    ensures WordsAt(Splice(b, o, WordBytes(ws)), o, |ws|) == ws
  {
    hide Splice, WordBytes, Le32;
    forall k | 0 <= k < |ws| ensures Le32(Splice(b, o, WordBytes(ws)), o + 4 * k) == ws[k] {
      WordRoundTrip(b, o, ws, k);
    }
  }

  lemma WordsFrame(b: seq<byte>, c: seq<byte>, o: nat, n: nat)
    requires o + 4 * n <= |b| && o + 4 * n <= |c|
    requires forall k :: o <= k < o + 4 * n ==> b[k] == c[k]
    ensures WordsAt(b, o, n) == WordsAt(c, o, n)
  {
  }

  // ----- inodes in words -----

  function ToWords(i: Inode): (ws: seq<nat>)
    requires InodeOk(i)
    ensures |ws| == 32 && forall k :: 0 <= k < 32 ==> Word(ws[k])
  {
    [i.mode + 0x1_0000 * i.uid, i.size, i.atime, i.ctime, i.mtime, i.dtime, i.gid + 0x1_0000 * i.links,
     i.blocks, i.flags, i.osd1] + i.block + i.tail
  }

  function FromWords(ws: seq<nat>): (i: Inode)
    requires |ws| == 32 && forall k :: 0 <= k < 32 ==> Word(ws[k])
    ensures InodeOk(i)
  {
    assert Word(ws[0]) && Word(ws[6]);
    Inode(ws[0] % 0x1_0000, ws[0] / 0x1_0000, ws[1], ws[2], ws[3], ws[4], ws[5],
          ws[6] % 0x1_0000, ws[6] / 0x1_0000, ws[7], ws[8], ws[9], ws[10..25], ws[25..])
  }

  lemma FromToWords(i: Inode)
    requires InodeOk(i)
    ensures FromWords(ToWords(i)) == i
  {
    var ws := ToWords(i);
    assert ws[10..25] == i.block;
    assert ws[25..] == i.tail;
  }

  // ----- inodes in table blocks -----

  function SlotInode(b: Block, slot: nat): (i: Inode)
    requires slot < INODES_PER_BLOCK
    ensures InodeOk(i)
  {
    FromWords(WordsAt(b, INODE_SIZE * slot, 32))
  }

  function WithSlot(b: Block, slot: nat, i: Inode): Block
    requires slot < INODES_PER_BLOCK && InodeOk(i)
  {
    Splice(b, INODE_SIZE * slot, WordBytes(ToWords(i)))
  }

  /** Writing one slot of a table block round-trips and leaves the other seven alone. */
  lemma SlotUpdated(b: Block, slot: nat, i: Inode, other: nat)
    requires slot < INODES_PER_BLOCK && other < INODES_PER_BLOCK && InodeOk(i)
    ensures SlotInode(WithSlot(b, slot, i), other) == if other == slot then i else SlotInode(b, other)
  {
    var c := WithSlot(b, slot, i);
    if other == slot {
      WordsRoundTrip(b, INODE_SIZE * slot, ToWords(i));
      FromToWords(i);
    } else {
      WordsFrame(b, c, INODE_SIZE * other, 32);
    }
  }

  // ----- kinds of files -----

  /** `(mode & S_IFMT) == S_IFDIR`: the format is the top four bits of the mode. */
  predicate IsDir(i: Inode) {
    i.mode / 0x1000 == 4
  }

  predicate IsReg(i: Inode) {
    i.mode / 0x1000 == 8
  }

  const MODE_DIR: nat := 0x4000 + 0x1ED    // S_IFDIR | 0755
  const MODE_REG: nat := 0x8000 + 0x1A4    // S_IFREG | 0644

  /** The inode that `init_inode` leaves. */
  function InitInode(mode: nat, now: nat): (i: Inode)
    requires Half(mode) && Word(now)
    ensures InodeOk(i)
  {
    Inode(mode, 0, 0, now, now, now, 0, 0, 2, 1, 0, 0, seq(N_BLOCKS, _ => 0), seq(7, _ => 0))
  }

}
