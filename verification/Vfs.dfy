/**
 * The interface layer: paths, descriptors, and the block loops of `read` and `write`.  Every method is proved to do to
 * the file system on the disk and to the descriptors what the function of module World of the same name says.
 */
module Vfs {
  import opened Bytes
  import opened Geometry
  import opened Inodes
  import opened DirRecords
  import opened Fs
  import F = Fs
  import opened Invariant
  import opened DirUpdates
  import opened DirMaps
  import opened FileData
  import opened Files
  import opened FileTheory
  import opened Creation
  import opened World
  import W = World
  import R = Runs
  import X = Ext2m
  import A = Allocation
  import B = DirBlock
  import E = EntryBlock

  lemma AddReady(born: Fs, dir: nat)
    requires Inv(born) && LiveDir(born, dir)
    ensures A.MetaMarked(born) && TreesOk(born, GetInode(born, dir))
  {
    InvOk(born);
    hide Inv, TreesOk, AllBlocks;
    DirReadable(born, dir);
  }

  /** After the birth of a directory its father can take the entry. */
  lemma BornDirReady(fs: Fs, dir: nat, name: Name, now: nat)
    requires Inv(fs) && LiveDir(fs, dir) && CanMakeDir(fs, dir, name, now) && IsFree(fs, dir, name)
    ensures var born := BornDir(Ialloc(fs).1, Ialloc(fs).0, dir, now);
            A.MetaMarked(born) && IsInode(born, dir) && TreesOk(born, GetInode(born, dir))
  {
    var (nid, fs1) := Ialloc(fs);
    var born := BornDir(fs1, nid, dir, now);
    hide Inv, BornDir, AllBlocks, CanAddEntry, FreshDir, TreesOk, A.MetaMarked, Find, Ialloc;
    BornDirKeeps(fs, dir, now);
    BornKeepsDir(fs, born, dir, nid);
    AddReady(born, dir);
  }

  lemma BornKeepsDir(fs: Fs, born: Fs, dir: nat, nid: nat)
    requires LiveDir(fs, dir) && Born(fs, born, nid) && Changes(fs, born, nid)
    ensures LiveDir(born, dir)
  {
    assert dir != nid && Undisturbed(fs, born, dir);
    hide Ok, A.MetaMarked, Direct;
  }

  /** After the birth of a file its directory can take the entry. */
  lemma BornFileReady(fs: Fs, dir: nat, name: Name, now: nat)
    requires Inv(fs) && LiveDir(fs, dir) && CanMakeFile(fs, dir, name, now) && IsFree(fs, dir, name)
    ensures var born := BornFile(Ialloc(fs).1, Ialloc(fs).0, now);
            A.MetaMarked(born) && IsInode(born, dir) && TreesOk(born, GetInode(born, dir))
  {
    var (nid, fs1) := Ialloc(fs);
    var born := BornFile(fs1, nid, now);
    hide Inv, BornFile, AllBlocks, CanAddEntry, TreesOk, A.MetaMarked, Find, Ialloc;
    BornFileKeeps(fs, now);
    BornKeepsDir(fs, born, dir, nid);
    AddReady(born, dir);
  }

  class Vfs {
    const ext2: X.Ext2m
    /** The scratch block of this layer. */
    const buf: array<byte>
    var files: seq<Fd>
    /** Set by a lookup with creation: the directory is new. */
    var created: bool

    /** The two layers hold valid data, in scratch blocks of their own. */
    ghost predicate Ready()
      reads this, ext2, ext2.disk, ext2.disk.disk
    {
      ext2.Mounted() && buf.Length == BLOCK_SIZE && buf != ext2.buf
    }

    ghost function Now(): World
      reads this, ext2
    {
      World(ext2.fs, files)
    }

    ghost predicate Valid()
      reads this, ext2, ext2.disk, ext2.disk.disk
    {
      Ready() && R.Good(Now())
    }

    constructor (ext2: X.Ext2m)
      requires ext2.Mounted() && Inv(ext2.fs)
      ensures Valid() && this.ext2 == ext2 && fresh(buf) && Now() == World(ext2.fs, [CLOSED, CLOSED, CLOSED])
    {
      hide X.Ext2m.OnDisk, F.Ok, Inv;
      this.ext2, buf := ext2, new byte[BLOCK_SIZE];
      files, created := [CLOSED, CLOSED, CLOSED], false;
    }

    // ----- lookups -----

    /** `find_dir_from_inode` without creation. */
    method FindDir(ino: nat, name: Name) returns (found: Option<nat>)
      requires Ready() && IsInode(ext2.fs, ino) && TreesOk(ext2.fs, GetInode(ext2.fs, ino))
      requires DirBlocksOk(ext2.fs, AllBlocks(ext2.fs, ino))
      modifies `created, ext2.buf, ext2.disk, ext2.disk.disk
      ensures Ready() && ext2.fs == old(ext2.fs) && found == Find(ext2.fs, ino, name) && !created
    {
      hide X.Ext2m.OnDisk, F.Ok, AllBlocks, TreesOk, DirBlocksOk, CollectBlocks;
      created := false;
      var entries := ext2.GetInodeAllEntry(ino);
      for i := 0 to |entries|
        invariant Ready() && ext2.fs == old(ext2.fs) && !created
        invariant i <= FindName(entries, name)
      {
        if entries[i].name == name {
          return Some(entries[i].inode);
        }
      }
      found := None;
    }

    /** The walk along a path, one lookup per component. */
    method Walk(path: seq<Name>) returns (found: Option<nat>)
      requires Ready() && Walkable(ext2.fs, ROOT_INODE, path)
      modifies `created, ext2.buf, ext2.disk, ext2.disk.disk
      ensures Ready() && ext2.fs == old(ext2.fs) && found == W.Walk(ext2.fs, ROOT_INODE, path)
    {
      var ino: nat := ROOT_INODE;
      for i := 0 to |path|
        invariant Ready() && ext2.fs == old(ext2.fs) && Walkable(ext2.fs, ino, path[i..])
        invariant W.Walk(ext2.fs, ino, path[i..]) == W.Walk(ext2.fs, ROOT_INODE, path)
      {
        assert path[i..][0] == path[i] && path[i..][1..] == path[i + 1..];
        var next := FindDir(ino, path[i]);
        if next.None? {
          return None;
        }
        ino := next.value;
      }
      found := Some(ino);
    }

    // ----- creation -----

    /** The inode and the first block of a new directory. */
    method InitDir(newid: nat, father: nat, now: nat)
      requires Ready() && IsInode(ext2.fs, newid) && Word(now) && F.Ok(ext2.fs) && A.MetaMarked(ext2.fs)
      requires CanAllocate(ext2.fs, Hint(ext2.fs, newid), 1)
      modifies buf, ext2`fs, ext2.buf, ext2.disk, ext2.disk.disk
      ensures Ready() && ext2.fs == BornDir(old(ext2.fs), newid, father, now)
    {
      hide X.Ext2m.OnDisk, F.Ok, A.MetaMarked, FreeFrom, Marked, B.InitBlock, DirectOnly, Direct, IsDir, InitInode,
           InodeOk, DirInode;
      ghost var n := FirstFree(ext2.fs, newid);
      FirstFreeWord(ext2.fs, newid);
      BornDirList(ext2.fs, newid, father, now);
      var group := newid / ext2.geo.inodesPerGroup;
      var found := ext2.Ballocs(group, 1);
      assert found == [n];
      ext2.WriteInode(newid, DirInode(found[0], now));
      E.InitEntryBlock(buf, newid, father);
      ext2.WriteData(found[0], buf);
    }

    /** `find_dir_from_inode` with creation. */
    method FindOrMakeDir(ino: nat, name: Name, now: nat) returns (found: Option<nat>)
      requires Ready() && Inv(ext2.fs) && LiveDir(ext2.fs, ino) && TreesOk(ext2.fs, GetInode(ext2.fs, ino))
      requires CanMakeDir(ext2.fs, ino, name, now)
      modifies `created, buf, ext2`fs, ext2.buf, ext2.disk, ext2.disk.disk
      ensures Ready() && (found, created, ext2.fs) == FindOrMake(old(ext2.fs), ino, name, now)
    {
      hide X.Ext2m.OnDisk, F.Ok, Inv, A.MetaMarked, Geo.Ok, AllBlocks, TreesOk, Find, CanAddEntry, AddEntry, BornDir,
           NextFreeInode;
      ghost var fs0 := ext2.fs;
      found := FindDir(ino, name);
      if found.Some? {
        return;
      }
      var newid := ext2.Ialloc();
      if newid == 0 {
        return;
      }
      AllocatedInode(fs0);
      BornDirReady(fs0, ino, name, now);
      InitDir(newid, ino, now);
      ext2.AddEntryToInode(ino, Entry(newid, FT_DIR, name));
      created := true;
      found := Some(newid);
    }

    /** Creates a file under a name of a directory. */
    method CreateIn(ino: nat, name: Name, now: nat) returns (made: bool)
      requires Ready() && Inv(ext2.fs) && LiveDir(ext2.fs, ino) && TreesOk(ext2.fs, GetInode(ext2.fs, ino))
      requires CanMakeFile(ext2.fs, ino, name, now)
      modifies `created, ext2`fs, ext2.buf, ext2.disk, ext2.disk.disk
      ensures Ready() && (made, ext2.fs) == MakeFile(old(ext2.fs), ino, name, now)
    {
      hide X.Ext2m.OnDisk, F.Ok, Inv, A.MetaMarked, Geo.Ok, AllBlocks, TreesOk, Find, CanAddEntry, AddEntry,
           NextFreeInode, InitInode, InodeOk;
      ghost var fs0 := ext2.fs;
      var found := FindDir(ino, name);
      if found.Some? {
        return false;
      }
      var nid := ext2.Ialloc();
      if nid == 0 {
        return false;
      }
      AllocatedInode(fs0);
      BornFileReady(fs0, ino, name, now);
      ext2.WriteInode(nid, InitInode(MODE_REG, now));
      ext2.AddEntryToInode(ino, Entry(nid, FT_REG_FILE, name));
      made := true;
    }

    // ----- byte ranges -----

    /** Reads a byte range block by block: the rest of the first block, whole blocks, the start of the last one. */
    method ReadRange(blocks: seq<nat>, offset: nat, n: nat) returns (data: seq<byte>)
      requires Ready() && Held(ext2.fs.data, blocks) && Within(blocks, offset, n)
      modifies buf, ext2.disk, ext2.disk.disk
      ensures Ready() && ext2.fs == old(ext2.fs) && data == Slice(ext2.fs.data, blocks, offset, n)
    {
      hide X.Ext2m.OnDisk, F.Ok, Slice, ReadUpTo, Room;
      var start, startOffset := offset / BLOCK_SIZE, offset % BLOCK_SIZE;
      var end, endOffset := (offset + n) / BLOCK_SIZE, (offset + n) % BLOCK_SIZE;
      ghost var content := ext2.fs.data;
      if start == end {
        ext2.ReadData(blocks[start], buf);
        data := buf[startOffset..startOffset + n];
        assert LeavesAt(offset, n, start) == offset + n;
        SliceEnds(content, blocks, offset, n);
        return;
      }
      data := [];
      var i := start;
      ReadNothing(content, blocks, offset, n);
      while i <= end
        invariant Ready() && ext2.fs == old(ext2.fs) && start <= i <= end + 1
        invariant ReadUpTo(content, blocks, offset, n, i, data)
      {
        ReadMore(content, blocks, offset, n, i, data);
        ext2.ReadData(blocks[i], buf);
        if i == end {
          data := data + buf[..endOffset];
        } else {
          data := data + (if i == start then buf[startOffset..] else buf[..]);
        }
        i := i + 1;
      }
      ReadAll(content, blocks, offset, n, data);
    }

    /** Overwrites a piece of one block. */
    method PatchBlock(b: nat, o: nat, piece: seq<byte>)
      requires Ready() && b in ext2.fs.data && o + |piece| <= BLOCK_SIZE
      modifies buf, ext2`fs, ext2.disk, ext2.disk.disk
      ensures Ready() && ext2.fs == PutData(old(ext2.fs), b, Splice(old(ext2.fs).data[b], o, piece))
    {
      hide X.Ext2m.OnDisk, F.Ok;
      ext2.ReadData(b, buf);
      Copy(buf, o, piece);
      ext2.WriteData(b, buf);
    }

    /** Writes a byte range block by block; nothing if its end has wrapped around. */
    method WriteRange(blocks: seq<nat>, offset: nat, bytes: seq<byte>)
      requires Ready() && Held(ext2.fs.data, blocks) && Bounded(offset, |bytes|)
      requires !WrapsAround(offset, |bytes|) ==> Within(blocks, offset, |bytes|)
      modifies buf, ext2`fs, ext2.disk, ext2.disk.disk
      ensures Ready()
      ensures ext2.fs == if WrapsAround(offset, |bytes|) then old(ext2.fs)
                         else old(ext2.fs).(data := Patch(old(ext2.fs).data, blocks, offset, bytes))
    {
      hide X.Ext2m.OnDisk, F.Ok, Patch, Splice, Wrap, WrittenUpTo, Room;
      var n := |bytes|;
      var start, startOffset := offset / BLOCK_SIZE, offset % BLOCK_SIZE;
      var end := Wrap(offset + n) / BLOCK_SIZE;
      ghost var fs0 := ext2.fs;
      WrapsBeyond(offset, n);
      if start == end {
        assert LeavesAt(offset, n, start) == offset + n;
        PatchEnds(fs0.data, blocks, offset, bytes);
        PatchBlock(blocks[start], startOffset, bytes);
        return;
      }
      if start < end {
        WrittenNothing(fs0.data, blocks, offset, bytes);
      }
      var i, done := start, 0;
      while i <= end
        invariant Ready() && start <= i && (start <= end ==> i <= end + 1)
        invariant i <= end ==> done == if i == start then 0 else i * BLOCK_SIZE - offset
        invariant ext2.fs == fs0.(data := ext2.fs.data)
        invariant if start < end then WrittenUpTo(fs0.data, ext2.fs.data, blocks, offset, bytes, i) else ext2.fs == fs0
      {
        WriteMore(fs0.data, ext2.fs.data, blocks, offset, bytes, i);
        if i == end {
          PatchBlock(blocks[i], 0, bytes[done..n]);
        } else {
          var room := if i == start then BLOCK_SIZE - startOffset else BLOCK_SIZE;
          PatchBlock(blocks[i], if i == start then startOffset else 0, bytes[done..done + room]);
          done := done + room;
        }
        i := i + 1;
      }
      if start < end {
        WrittenAll(fs0.data, ext2.fs.data, blocks, offset, bytes);
      }
    }

    // ----- the interface -----

    method Create(path: seq<Name>, now: nat) returns (ret: int)
      requires Valid() && CanCreate(ext2.fs, path, now)
      modifies `created, ext2`fs, ext2.buf, ext2.disk, ext2.disk.disk
      ensures Valid() && files == old(files) && (ret, ext2.fs) == W.Create(old(ext2.fs), path, now)
    {
      hide X.Ext2m.OnDisk, F.Ok, Inv, R.FsStep, R.FdsGood, LiveDir, TreesOk, CanMakeFile, MakeFile, W.Walk, Walkable;
      R.CreateCallKeeps(Now(), path, now);
      var name := path[|path| - 1];
      if |name| > NAME_LEN {
        return -1;
      }
      var dir := Walk(path[..|path| - 1]);
      if dir.None? {
        return -1;
      }
      var made := CreateIn(dir.value, name, now);
      ret := if made then 0 else -1;
    }

    /** Makes every directory of the path; one that exists already ends the call. */
    method Mkdir(path: seq<Name>, now: nat) returns (ret: int)
      requires Valid() && CanMakeDirs(ext2.fs, ROOT_INODE, path, now)
      modifies `created, buf, ext2`fs, ext2.buf, ext2.disk, ext2.disk.disk
      ensures Valid() && files == old(files) && (ret, ext2.fs) == MakeDirs(old(ext2.fs), ROOT_INODE, path, now)
    {
      hide X.Ext2m.OnDisk, F.Ok, Inv, R.FsStep, R.FdsGood, LiveDir, TreesOk, CanMakeDir, FindOrMake;
      R.MkdirCallKeeps(Now(), path, now);
      var ino: nat := ROOT_INODE;
      for i := 0 to |path|
        invariant Ready() && files == old(files) && Inv(ext2.fs) && CanMakeDirs(ext2.fs, ino, path[i..], now)
        invariant MakeDirs(ext2.fs, ino, path[i..], now) == MakeDirs(old(ext2.fs), ROOT_INODE, path, now)
      {
        assert path[i..][0] == path[i] && path[i..][1..] == path[i + 1..];
        R.MadeInv(ext2.fs, ino, path[i], now);
        var found := FindOrMakeDir(ino, path[i], now);
        if found.None? || !created {
          return -1;
        }
        ino := found.value;
      }
      ret := 0;
    }

    /** The first closed descriptor from 3 on; the table grows by one if there is none. */
    method GetAvailableFd() returns (fd: nat)
      requires |files| >= FIRST_FD
      modifies `files
      ensures fd == FreeFd(old(files), FIRST_FD)
          && files == PutFd(old(files), fd, if fd == |old(files)| then CLOSED else old(files)[fd])
    {
      var i := FIRST_FD;
      while i < |files|
        invariant FIRST_FD <= i <= |files| && files == old(files) && FreeFd(files, i) == FreeFd(files, FIRST_FD)
      {
        if files[i].inode == 0 {
          return i;
        }
        i := i + 1;
      }
      files := files + [CLOSED];
      fd := i;
    }

    method Open(path: seq<Name>, flag: int, now: nat) returns (fd: int)
      requires Valid() && CanOpen(Now(), path, flag, now)
      modifies `files, `created, ext2`fs, ext2.buf, ext2.disk, ext2.disk.disk
      ensures Valid() && (fd, Now()) == W.Open(old(Now()), path, flag, now)
    {
      hide X.Ext2m.OnDisk, F.Ok, Inv, R.Good, CanCreate, W.Create, Walkable, W.Walk;
      R.OpenCallKeeps(Now(), path, flag, now);
      if Creates(flag) {
        var _ := Create(path, now);
      }
      fd := OpenFile(path, flag);
    }

    /** Opens a regular file that exists. */
    method OpenFile(path: seq<Name>, flag: int) returns (fd: int)
      requires Ready() && Walkable(ext2.fs, ROOT_INODE, path) && |files| >= FIRST_FD
      modifies `files, `created, ext2.buf, ext2.disk, ext2.disk.disk
      ensures Ready() && (fd, Now()) == OpenFound(old(Now()), W.Walk(ext2.fs, ROOT_INODE, path), flag)
    {
      hide X.Ext2m.OnDisk, F.Ok, Walkable, W.Walk, InodeOk;
      var found := Walk(path);
      if found.None? {
        return -1;
      }
      var inode := ext2.GetInode(found.value);
      if !IsReg(inode) {
        return -1;
      }
      var free := GetAvailableFd();
      files := files[free := Fd(found.value, 0, flag)];
      assert files == PutFd(old(files), free, Fd(found.value, 0, flag));
      fd := free;
    }

    method Close(fd: int) returns (ret: int)
      requires Valid()
      modifies `files
      ensures Valid() && (ret, Now()) == W.Close(old(Now()), fd)
    {
      hide X.Ext2m.OnDisk, F.Ok, R.Good;
      R.CloseCallKeeps(Now(), fd);
      if !IsOpen(files, fd) {
        return -1;
      }
      files := files[fd := CLOSED];
      ret := 0;
    }

    method Lseek(fd: int, offset: int, whence: int) returns (ret: int)
      requires Valid()
      modifies `files, ext2.buf, ext2.disk, ext2.disk.disk
      ensures Valid() && (IsOpen(old(files), fd) ==> IsInode(old(ext2.fs), old(files)[fd].inode))
      ensures (ret, Now()) == W.Lseek(old(Now()), fd, offset, whence)
    {
      hide X.Ext2m.OnDisk, F.Ok, R.Good, R.FsStep, InodeOk;
      R.OpenIsInode(Now(), fd);
      R.LseekCallKeeps(Now(), fd, offset, whence);
      if !IsOpen(files, fd) {
        return -1;
      }
      var f := files[fd];
      var inode := ext2.GetInode(f.inode);
      if whence == SEEK_SET {
        files := files[fd := f.(offset := Wrap(offset))];
      } else if whence == SEEK_CUR {
        files := files[fd := f.(offset := Wrap(f.offset + offset))];
      } else if whence == SEEK_END {
        files := files[fd := f.(offset := Wrap(inode.size + offset))];
      } else {
        return -1;
      }
      ret := files[fd].offset;
    }

    method Read(fd: int, count: nat, now: nat) returns (ret: int, data: seq<byte>)
      requires Valid() && CanReadFd(Now(), fd, count, now) && Word(now)
      modifies buf, ext2`fs, ext2.buf, ext2.disk, ext2.disk.disk
      ensures Valid() && (ret, data, Now()) == W.Read(old(Now()), fd, count, now)
    {
      hide X.Ext2m.OnDisk, F.Ok, R.Good, R.FsStep, InodeOk, ReadFile, CanRead, Accessed;
      R.ReadCallKeeps(Now(), fd, count, now);
      if !IsOpen(files, fd) {
        return -1, [];
      }
      if count == 0 {
        return 0, [];
      }
      if !CanBeRead(files[fd].flag) {
        return -1, [];
      }
      data := ReadFrom(files[fd].inode, files[fd].offset, count, now);
      ret := |data|;
    }

    /** The access time first, then the bytes up to the end of the file. */
    method ReadFrom(ino: nat, offset: nat, count: nat, now: nat) returns (data: seq<byte>)
      requires Ready() && CanRead(ext2.fs, ino, offset, count, now)
      modifies buf, ext2`fs, ext2.buf, ext2.disk, ext2.disk.disk
      ensures Ready() && ext2.fs == Accessed(old(ext2.fs), ino, now)
          && data == ReadFile(old(ext2.fs), ino, offset, count, now)
    {
      hide X.Ext2m.OnDisk, F.Ok, InodeOk, Slice, AllBlocks, TreesOk, Held, Within;
      var inode := ext2.GetInode(ino);
      AccessedOk(inode, now);
      ext2.WriteInode(ino, inode.(atime := now));
      if offset >= inode.size {
        return [];
      }
      var n := if offset + count > inode.size then inode.size - offset else count;
      var blocks := ext2.AllBlocks(ino);
      data := ReadRange(blocks, offset, n);
    }

    method Write(fd: int, bytes: seq<byte>, now: nat) returns (ret: int)
      requires Valid() && CanWriteFd(Now(), fd, bytes, now)
      modifies `files, buf, ext2`fs, ext2.buf, ext2.disk, ext2.disk.disk
      ensures Valid() && (ret, Now()) == W.Write(old(Now()), fd, bytes, now)
    {
      hide X.Ext2m.OnDisk, F.Ok, R.Good, R.FsStep, InodeOk, WriteFile, CanWrite;
      R.WriteCallKeeps(Now(), fd, bytes, now);
      if !IsOpen(files, fd) {
        return -1;
      }
      if bytes == [] {
        return 0;
      }
      if !Writeable(files[fd].flag) {
        return -1;
      }
      var f := files[fd];
      WriteTo(f.inode, f.offset, bytes, now);
      files := files[fd := f.(offset := Wrap(f.offset + |bytes|))];
      ret := |bytes|;
    }

    /** The size and times first, then the missing blocks, then the bytes. */
    method WriteTo(ino: nat, offset: nat, bytes: seq<byte>, now: nat)
      requires Ready() && CanWrite(ext2.fs, ino, offset, |bytes|, now)
      modifies buf, ext2`fs, ext2.buf, ext2.disk, ext2.disk.disk
      ensures Ready() && ext2.fs == WriteFile(old(ext2.fs), ino, offset, bytes, now)
    {
      hide X.Ext2m.OnDisk, F.Ok, InodeOk, AllBlocks, TreesOk, Held, Patch, Grow, CanGrow, A.MetaMarked, Within, Wrap,
           WrapsAround;
      var inode := ext2.GetInode(ino);
      SizedOk(inode, Wrap(offset + |bytes|), now);
      ext2.WriteInode(ino, inode.(size := Max(inode.size, Wrap(offset + |bytes|)), atime := now, mtime := now));
      GrownHolds(ext2.fs, ino, offset, |bytes|);
      GrownReadable(ext2.fs, ino, offset, |bytes|);
      var blocks := ext2.AllBlocks(ino);
      var end := Wrap(offset + |bytes|) / BLOCK_SIZE;
      if end >= |blocks| {
        AddBlocks(ino, end - |blocks| + 1);
        blocks := ext2.AllBlocks(ino);
      } else {
        GrowNone(ext2.fs, ino);
      }
      WriteRange(blocks, offset, bytes);
    }

    /** Adds direct blocks to an inode, one after the other. */
    method AddBlocks(ino: nat, count: nat)
      requires Ready() && F.Ok(ext2.fs) && CanGrow(ext2.fs, ino, count)
      modifies ext2`fs, ext2.buf, ext2.disk, ext2.disk.disk
      ensures Ready() && ext2.fs == Grow(old(ext2.fs), ino, count)
    {
      hide X.Ext2m.OnDisk, F.Ok, CanGrow, Grow, AddBlock, CanAddBlock;
      var left := count;
      while left > 0
        invariant Ready() && F.Ok(ext2.fs) && CanGrow(ext2.fs, ino, left)
        invariant Grow(ext2.fs, ino, left) == Grow(old(ext2.fs), ino, count)
      {
        GrowUnfolds(ext2.fs, ino, left);
        var _ := ext2.AddBlockToInode(ino);
        left := left - 1;
      }
      GrowNone(ext2.fs, ino);
    }
  }

  lemma AccessedOk(i: Inode, now: nat)
    requires InodeOk(i) && Word(now)
    ensures InodeOk(i.(atime := now))
  {
  }

  lemma SizedOk(i: Inode, end: nat, now: nat)
    requires InodeOk(i) && Word(end) && Word(now)
    ensures InodeOk(i.(size := Max(i.size, end), atime := now, mtime := now))
  {
  }

  lemma GrownReadable(fs: Fs, ino: nat, offset: nat, n: nat)
    requires CanStore(fs, ino, offset, n)
    ensures var grown := Grow(fs, ino, Shortage(fs, ino, Wrap(offset + n)));
            TreesOk(grown, GetInode(grown, ino))
  {
    var count := Shortage(fs, ino, Wrap(offset + n));
    if count > 0 {
      hide Grow, AllBlocks, Direct, DirectOnly, F.Ok, A.MetaMarked, Held;
      GrowFrame(fs, ino, count);
      AllBlocksDirect(Grow(fs, ino, count), ino);
    } else {
      GrowNone(fs, ino);
    }
  }
}
