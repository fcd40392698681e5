/** What the calls on a descriptor answer, for every descriptor, flag and base. */
module Descriptors {
  import opened Bytes
  import opened Geometry
  import opened Inodes
  import opened DirRecords
  import opened Fs
  import opened Invariant
  import opened DirUpdates
  import opened Files
  import opened FileTheory
  import opened Balance
  import opened Namespace
  import opened World
  import opened Runs
  import opened Paths

  // ----- read and write -----

  /** The bytes of the file from the descriptor's offset on; nothing changes but the access time of the inode. */
  ghost predicate ReadsFrom(w: World, fd: nat, count: nat, now: nat, n: int, bytes: seq<byte>, w': World)
    requires fd < |w.files|
  {
    var ino, offset := w.files[fd].inode, w.files[fd].offset;
    && Readable(w.fs, ino) && Readable(w'.fs, ino) && Content(w'.fs, ino) == Content(w.fs, ino)
    && w'.files == w.files && n == |bytes|
    && IsInode(w.fs, ino) && w'.fs == PutInode(w.fs, ino, GetInode(w.fs, ino).(atime := now))
    && var c := Content(w.fs, ino);
       bytes == if offset >= |c| then [] else c[offset..Min(offset + count, |c|)]
  }

  /**
   * What a read answers: -1 for a closed descriptor, 0 for no bytes, the bytes for the access modes O_RDONLY and
   * O_RDWR, and -1 for the others.
   */
  lemma ReadAnswers(w: World, fd: int, count: nat, now: nat)
    requires Good(w) && Word(now)
    requires 0 <= fd < |w.files| ==> w.files[fd].offset + count < 0x1_0000_0000_0000_0000
    ensures CanReadFd(w, fd, count, now)
    ensures var (n, bytes, w') := Read(w, fd, count, now);
            if !(0 <= fd < |w.files|) || w.files[fd].inode == 0 then (n, bytes, w') == (-1, [], w)
            else if count == 0 then (n, bytes, w') == (0, [], w)
            else if w.files[fd].flag % 4 in {0, 2} then ReadsFrom(w, fd, count, now, n, bytes, w')
            else (n, bytes, w') == (-1, [], w)
  {
    hide Inv, LiveFile, CanRead, ReadFile, Content, Readable;
    if IsOpen(w.files, fd) && count > 0 && w.files[fd].flag % 4 in {0, 2} {
      FdGood(w, fd);
      assert IsInode(w.fs, w.files[fd].inode) by { OpenIsInode(w, fd); }
      ReadThrough(w, fd, count, now);
      ReadKeeps(w.fs, w.files[fd].inode, now);
    }
  }

  /** The bytes arrive exactly if their end fits 32 bits; nothing else in the descriptor table changes. */
  ghost predicate WritesAt(w: World, fd: nat, bytes: seq<byte>, n: int, w': World)
    requires fd < |w.files|
  {
    var ino, offset := w.files[fd].inode, w.files[fd].offset;
    && n == |bytes| && w'.files == w.files[fd := w.files[fd].(offset := Wrap(offset + |bytes|))]
    && Readable(w.fs, ino) && Readable(w'.fs, ino)
    && (Overwritten(Content(w.fs, ino), Content(w'.fs, ino), offset, bytes) <==> offset + |bytes| < 0x1_0000_0000)
  }

  /**
   * What a write answers: -1 for a closed descriptor, 0 for no bytes, their number for the access modes O_WRONLY and
   * O_RDWR, and -1 for the others.
   */
  lemma WriteAnswers(w: World, fd: int, bytes: seq<byte>, now: nat)
    requires Good(w)
    requires 0 <= fd < |w.files| && w.files[fd].inode != 0 && bytes != [] && w.files[fd].flag % 4 in {1, 2} ==>
               CanWrite(w.fs, w.files[fd].inode, w.files[fd].offset, |bytes|, now)
    ensures CanWriteFd(w, fd, bytes, now)
    ensures var (n, w') := Write(w, fd, bytes, now);
            if !(0 <= fd < |w.files|) || w.files[fd].inode == 0 then (n, w') == (-1, w)
            else if bytes == [] then (n, w') == (0, w)
            else if w.files[fd].flag % 4 in {1, 2} then WritesAt(w, fd, bytes, n, w')
            else (n, w') == (-1, w)
  {
    hide Good, CanWrite, WriteFile, Content, Readable, Overwritten, Wrap, NamesKept, FilesKept;
    if IsOpen(w.files, fd) && bytes != [] && w.files[fd].flag % 4 in {1, 2} {
      WriteThrough(w, fd, bytes, now);
    }
  }

  // ----- close -----

  /** Closing an open descriptor clears it and no other; closing a closed one fails. */
  lemma CloseAnswers(w: World, fd: int)
    ensures var (r, w') := Close(w, fd);
            if !(0 <= fd < |w.files|) || w.files[fd].inode == 0 then (r, w') == (-1, w)
            else r == 0 && w'.fs == w.fs && |w'.files| == |w.files| && w'.files[fd] == Fd(0, 0, 0)
                 && forall k :: 0 <= k < |w.files| && k != fd ==> w'.files[k] == w.files[k]
  {
  }

  // ----- lseek -----

  /** Where a seek counts from: the start of the file, the offset, or the end of the file. */
  ghost function Base(w: World, fd: nat, whence: int): nat
    requires fd < |w.files| && Readable(w.fs, w.files[fd].inode)
  {
    if whence == 0 then 0 else if whence == 1 then w.files[fd].offset else |Content(w.fs, w.files[fd].inode)|
  }

  lemma Remainder(x: int)
    ensures (x - Wrap(x)) % 0x1_0000_0000 == 0
  {
  }

  /**
   * What a seek answers: the new offset, which is the base plus the distance but for a multiple of 2^32; and -1 for a
   * closed descriptor or a base that is none of the three.
   */
  lemma SeekAnswers(w: World, fd: int, offset: int, whence: int)
    requires Good(w)
    ensures IsOpen(w.files, fd) ==> IsInode(w.fs, w.files[fd].inode)
    ensures var (r, w') := Lseek(w, fd, offset, whence);
            if !(0 <= fd < |w.files|) || w.files[fd].inode == 0 || whence !in {0, 1, 2} then (r, w') == (-1, w)
            else
              && Readable(w.fs, w.files[fd].inode) && 0 <= r < 0x1_0000_0000
              && (Base(w, fd, whence) + offset - r) % 0x1_0000_0000 == 0
              && w' == w.(files := w.files[fd := w.files[fd].(offset := r)])
  {
    hide Good, Readable, Content, Wrap;
    OpenIsInode(w, fd);
    if IsOpen(w.files, fd) && whence in {0, 1, 2} {
      FdContent(w, fd);
      Remainder(Base(w, fd, whence) + offset);
    }
  }

  /** An absolute seek forgets the seeks before it. */
  lemma SeekForgets(w: World, fd: int, x: int, whence: int, k: int)
    requires Good(w) && IsOpen(w.files, fd)
    ensures IsInode(w.fs, w.files[fd].inode)
    ensures var w1 := Lseek(w, fd, x, whence).1;
            && IsOpen(w1.files, fd) && IsInode(w1.fs, w1.files[fd].inode)
            && Lseek(w1, fd, k, 0) == Lseek(w, fd, k, 0)
  {
    hide Good, Wrap;
    OpenIsInode(w, fd);
    var w1 := Lseek(w, fd, x, whence).1;
    assert w1.files[fd := w1.files[fd].(offset := Wrap(k))] == w.files[fd := w.files[fd].(offset := Wrap(k))];
  }

  /** After an absolute seek a read returns the bytes from there on. */
  lemma SeekThenRead(w: World, fd: int, k: nat, count: nat, now: nat)
    requires Good(w) && Word(now) && 0 <= fd < |w.files| && w.files[fd].inode != 0 && w.files[fd].flag % 4 in {0, 2}
    requires k < 0x1_0000_0000 && 0 < count && k + count < 0x1_0000_0000_0000_0000
    ensures IsInode(w.fs, w.files[fd].inode) && Readable(w.fs, w.files[fd].inode)
    ensures var w1 := Lseek(w, fd, k, 0).1;
            && CanReadFd(w1, fd, count, now)
            && var c := Content(w.fs, w.files[fd].inode);
               Read(w1, fd, count, now).1 == if k >= |c| then [] else c[k..Min(k + count, |c|)]
  {
    hide Good, Content, Readable, Read, CanReadFd, Wrap;
    SeekAnswers(w, fd, k, 0);
    LseekCallKeeps(w, fd, k, 0);
    SmallWrap(k, Lseek(w, fd, k, 0).0);
    hide Lseek;
    ReadAnswers(Lseek(w, fd, k, 0).1, fd, count, now);
  }

  lemma SmallWrap(k: nat, r: int)
    requires k < 0x1_0000_0000 && 0 <= r < 0x1_0000_0000 && (k - r) % 0x1_0000_0000 == 0
    ensures r == k
  {
  }
}
