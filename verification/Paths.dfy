/** Paths and descriptors across calls: what was created is found, what was found stays found. */
module Paths {
  import opened Bytes
  import opened Geometry
  import opened Inodes
  import opened DirRecords
  import opened Fs
  import opened Invariant
  import opened DirUpdates
  import opened DirMaps
  import opened FileData
  import opened Files
  import opened FileTheory
  import opened Creation
  import opened Fathers
  import opened Namespace
  import opened World
  import opened Runs
  import A = Allocation

  /** A name that is found stays found, with the same inode; also "." and "..". */
  lemma FindKept(fs: Fs, fs': Fs, a: nat, name: Name)
    requires Inv(fs) && Inv(fs') && MoreNames(fs, fs', a)
    ensures DirBlocksOk(fs, AllBlocks(fs, a)) && DirBlocksOk(fs', AllBlocks(fs', a))
    ensures Find(fs, a, name).Some? ==> Find(fs', a, name) == Find(fs, a, name)
  {
    hide Inv, Find, MapOf, AllBlocks, LiveDir;
    if IsDot(name) {
      DotsFound(fs, a);
      DotsFound(fs', a);
    } else {
      FindInMap(fs, a, name);
      FindInMap(fs', a, name);
    }
  }

  lemma StepParts(fs: Fs, fs': Fs, a: nat)
    requires Inv(fs) && Advances(fs, fs') && NamesGrow(fs, fs') && LiveDir(fs, a)
    ensures Inv(fs') && MoreNames(fs, fs', a) && LiveDir(fs', a) && TreesOk(fs', GetInode(fs', a))
  {
    hide Inv, MapOf, AllBlocks, TreesOk;
    assert MoreNames(fs, fs', a);
    DirReadable(fs', a);
  }

  /** A path that resolves goes on resolving to the same inode. */
  lemma {:induction false} WalkKept(fs: Fs, fs': Fs, ino: nat, path: seq<Name>)
    requires Inv(fs) && Advances(fs, fs') && NamesGrow(fs, fs') && Live(fs, ino)
    requires Walkable(fs, ino, path) && Walk(fs, ino, path).Some?
    ensures Walkable(fs', ino, path) && Walk(fs', ino, path) == Walk(fs, ino, path)
    decreases |path|
  {
    hide Inv, Find, AllBlocks, TreesOk, NamesGrow, DirBlocksOk, MapOf, LiveDir, IsReg, IsDir;
    assert IsInode(fs', ino);
    hide Advances, Live;
    if path != [] {
      StepParts(fs, fs', ino);
      FindKept(fs, fs', ino, path[0]);
      FoundLive(fs, ino, path[0]);
      assert Walk(fs, ino, path) == Walk(fs, Find(fs, ino, path[0]).value, path[1..]);
      WalkKept(fs, fs', Find(fs, ino, path[0]).value, path[1..]);
    }
  }

  /** Over any run, every path that resolves at its start resolves to the same inode at its end. */
  lemma RunKeepsPaths(w: World, calls: seq<Call>, path: seq<Name>)
    requires Good(w) && CanRun(w, calls)
    requires Walkable(w.fs, ROOT_INODE, path) && Walk(w.fs, ROOT_INODE, path).Some?
    ensures var fs' := Run(w, calls).fs;
            Walkable(fs', ROOT_INODE, path) && Walk(fs', ROOT_INODE, path) == Walk(w.fs, ROOT_INODE, path)
  {
    hide Ok, A.MetaMarked, AllGood, AllDisjoint, Live, FdsGood, CanRun, Run, Advances, NamesGrow, Walkable, Walk, Tree,
         FathersAgree;
    RunKeeps(w, calls);
    WalkKept(w.fs, Run(w, calls).fs, ROOT_INODE, path);
  }

  // ----- what was created is found -----

  lemma {:induction false} WalkOneMore(fs: Fs, ino: nat, dirs: seq<Name>, name: Name)
    requires Walkable(fs, ino, dirs) && Walk(fs, ino, dirs).Some?
    requires var dir := Walk(fs, ino, dirs).value;
             && LiveDir(fs, dir) && TreesOk(fs, GetInode(fs, dir)) && DirBlocksOk(fs, AllBlocks(fs, dir))
             && (Find(fs, dir, name).Some? ==> IsInode(fs, Find(fs, dir, name).value))
    ensures Walkable(fs, ino, dirs + [name])
    ensures Walk(fs, ino, dirs + [name]) == Find(fs, Walk(fs, ino, dirs).value, name)
    decreases |dirs|
  {
    hide Find, AllBlocks, TreesOk, DirBlocksOk, LiveDir;
    var path := dirs + [name];
    if dirs == [] {
      assert path[0] == name && path[1..] == [];
    } else {
      assert path[0] == dirs[0] && path[1..] == dirs[1..] + [name];
      WalkOneMore(fs, Find(fs, ino, dirs[0]).value, dirs[1..], name);
    }
  }

  /** What `create` entered, and where. */
  ghost predicate Made(fs: Fs, fs': Fs, dir: nat, name: Name, nid: nat) {
    && Entered(fs, fs', dir, name, nid) && LiveFile(fs', nid) && Readable(fs', nid) && Content(fs', nid) == []
    && Inv(fs') && Advances(fs, fs') && NamesGrow(fs, fs')
  }

  lemma CreateMakes(fs: Fs, path: seq<Name>, now: nat)
    requires Inv(fs) && CanCreate(fs, path, now) && Create(fs, path, now).0 == 0
    ensures path != [] && Walkable(fs, ROOT_INODE, path[..|path| - 1])
    ensures Walk(fs, ROOT_INODE, path[..|path| - 1]).Some?
    ensures Made(fs, Create(fs, path, now).1, Walk(fs, ROOT_INODE, path[..|path| - 1]).value, path[|path| - 1],
        Ialloc(fs).0)
  {
    assert path != [];
    hide Inv, Create, CanCreate, MakeFile, CanMakeFile, Walk, Walkable, Advances, FilesKept, NamesGrow, Tree,
         FathersAgree, Entered, Content, Readable, LiveDir, LiveFile, Ialloc;
    MakeFileKeeps(fs, Walk(fs, ROOT_INODE, path[..|path| - 1]).value, path[|path| - 1], now);
    CreateStep(fs, path, now);
  }

  lemma WasFree(fs: Fs, path: seq<Name>, now: nat)
    requires Inv(fs) && CanCreate(fs, path, now) && Create(fs, path, now).0 == 0
    ensures Walkable(fs, ROOT_INODE, path) && Walk(fs, ROOT_INODE, path) == None
  {
    assert path != [];
    hide Inv, Create, CanCreate, Walk, Walkable, TreesOk, Find, AllBlocks, MakeFile, LiveDir;
    var dirs, name := path[..|path| - 1], path[|path| - 1];
    var dir := Walk(fs, ROOT_INODE, dirs).value;
    DirReadable(fs, dir);
    WalkOneMore(fs, ROOT_INODE, dirs, name);
    assert path == dirs + [name];
  }

  /**
   * A successful `create` makes a path that did not resolve before resolve to a new, empty regular file, and leaves
   * every path that did resolve where it was.
   */
  lemma CreatedIsFound(fs: Fs, path: seq<Name>, now: nat)
    requires Inv(fs) && CanCreate(fs, path, now) && Create(fs, path, now).0 == 0
    ensures Walkable(fs, ROOT_INODE, path) && Walk(fs, ROOT_INODE, path) == None
    ensures var fs' := Create(fs, path, now).1;
            var nid := Ialloc(fs).0;
            && !Live(fs, nid) && LiveFile(fs', nid) && Readable(fs', nid) && Content(fs', nid) == []
            && Walkable(fs', ROOT_INODE, path) && Walk(fs', ROOT_INODE, path) == Some(nid)
    ensures var fs' := Create(fs, path, now).1;
            forall q :: Walkable(fs, ROOT_INODE, q) && Walk(fs, ROOT_INODE, q).Some? ==>
              Walkable(fs', ROOT_INODE, q) && Walk(fs', ROOT_INODE, q) == Walk(fs, ROOT_INODE, q)
  {
    hide Ok, A.MetaMarked, AllGood, AllDisjoint, Create, CanCreate, Walk, Walkable, TreesOk, Advances, NamesGrow,
         Entered, Content, Readable, LiveDir, LiveFile, Live, Find, AllBlocks, DirBlocksOk, Ialloc, IsInode;
    WasFree(fs, path, now);
    CreateMakes(fs, path, now);
    var dirs, name, fs' := path[..|path| - 1], path[|path| - 1], Create(fs, path, now).1;
    forall q | Walkable(fs, ROOT_INODE, q) && Walk(fs, ROOT_INODE, q).Some?
      ensures Walkable(fs', ROOT_INODE, q) && Walk(fs', ROOT_INODE, q) == Walk(fs, ROOT_INODE, q)
    {
      WalkKept(fs, fs', ROOT_INODE, q);
    }
    NewNameFound(fs, fs', Walk(fs, ROOT_INODE, dirs).value, name, Ialloc(fs).0);
    WalkOneMore(fs', ROOT_INODE, dirs, name);
    assert path == dirs + [name];
  }

  lemma NewNameFound(fs: Fs, fs': Fs, dir: nat, name: Name, nid: nat)
    requires Entered(fs, fs', dir, name, nid) && LiveFile(fs', nid)
    ensures LiveDir(fs', dir) && TreesOk(fs', GetInode(fs', dir)) && DirBlocksOk(fs', AllBlocks(fs', dir))
    ensures Find(fs', dir, name) == Some(nid) && IsInode(fs', nid) && !Live(fs, nid)
  {
    hide Inv, MapOf, AllBlocks, TreesOk, Find, KeepsOthers;
    DirReadable(fs', dir);
    FindInMap(fs', dir, name);
  }

  // ----- the tree -----

  /** No component is "." or "..". */
  predicate Plain(path: seq<Name>) {
    forall k :: 0 <= k < |path| ==> !IsDot(path[k])
  }

  /** The path resolves to the inode. */
  ghost predicate Resolves(fs: Fs, d: nat, path: seq<Name>, a: nat) {
    Walkable(fs, d, path) && Walk(fs, d, path) == Some(a)
  }

  lemma {:induction false} LeadsResolves(fs: Fs, d: nat, path: seq<Name>, a: nat)
    requires Inv(fs) && Live(fs, d) && Leads(fs, d, path, a)
    ensures Plain(path) && Resolves(fs, d, path, a)
    decreases |path|
  {
    hide Inv, Find, AllBlocks, TreesOk, MapOf, DirBlocksOk;
    if path != [] {
      var b :| Names(fs, d, path[0], b) && Leads(fs, b, path[1..], a);
      NamesNoDots(fs, d, path[0]);
      DirReadable(fs, d);
      FindInMap(fs, d, path[0]);
      FoundLive(fs, d, path[0]);
      LeadsResolves(fs, b, path[1..], a);
      assert path == [path[0]] + path[1..];
    }
  }

  lemma {:induction false} ResolvesLeads(fs: Fs, d: nat, path: seq<Name>, a: nat)
    requires Inv(fs) && Live(fs, d) && Plain(path) && Resolves(fs, d, path, a)
    ensures Leads(fs, d, path, a)
    decreases |path|
  {
    hide Inv, Find, AllBlocks, TreesOk, MapOf;
    if path != [] {
      FindInMap(fs, d, path[0]);
      FoundLive(fs, d, path[0]);
      assert Names(fs, d, path[0], Find(fs, d, path[0]).value);
      ResolvesLeads(fs, Find(fs, d, path[0]).value, path[1..], a);
    }
  }

  /** In a tree every live inode has exactly one path without dot components. */
  lemma OnlyPath(fs: Fs, a: nat) returns (path: seq<Name>)
    requires Inv(fs) && Tree(fs) && Live(fs, a)
    ensures Plain(path) && Resolves(fs, ROOT_INODE, path, a)
    ensures forall q :: Plain(q) && Resolves(fs, ROOT_INODE, q, a) ==> q == path
  {
    hide Ok, A.MetaMarked, AllGood, AllDisjoint, Live, OneName, FathersRight, Leads, Resolves, Plain;
    assert Reachable(fs, a);
    path :| Leads(fs, ROOT_INODE, path, a);
    LeadsResolves(fs, ROOT_INODE, path, a);
    forall q | Plain(q) && Resolves(fs, ROOT_INODE, q, a) ensures q == path {
      ResolvesLeads(fs, ROOT_INODE, q, a);
      OnePath(fs, q, path, a);
    }
  }

  // ----- descriptors -----

  /**
   * A successful `open` gives a descriptor from 3 on that was closed, on the inode the path resolves to, at the start
   * of the file; every other descriptor is as before, and every lower one from 3 on was open.
   */
  lemma OpenedAtStart(w: World, path: seq<Name>, flag: int)
    requires |w.files| >= FIRST_FD && Walkable(w.fs, ROOT_INODE, path)
    requires OpenFound(w, Walk(w.fs, ROOT_INODE, path), flag).0 != FAILED
    ensures var (fd, w') := OpenFound(w, Walk(w.fs, ROOT_INODE, path), flag);
            && w'.fs == w.fs && FIRST_FD <= fd < |w'.files| && !IsOpen(w.files, fd)
            && Some(w'.files[fd].inode) == Walk(w.fs, ROOT_INODE, path)
            && w'.files[fd].offset == 0 && w'.files[fd].flag == flag
            && IsInode(w.fs, w'.files[fd].inode) && IsReg(GetInode(w.fs, w'.files[fd].inode))
            && (forall k :: 0 <= k < |w.files| && k != fd ==> w'.files[k] == w.files[k])
            && (forall k :: FIRST_FD <= k < fd ==> IsOpen(w.files, k))
  {
    hide Walk, Walkable;
  }

  /** Closing what was just opened restores the table, except that a table that had no free place stays one longer. */
  lemma CloseUndoesOpen(w: World, found: Option<nat>, flag: int)
    requires |w.files| >= FIRST_FD && (found.Some? ==> IsInode(w.fs, found.value))
    requires forall k :: 0 <= k < |w.files| && w.files[k].inode == 0 ==> w.files[k] == CLOSED
    requires OpenFound(w, found, flag).0 != FAILED && found.value != 0
    ensures var (fd, w') := OpenFound(w, found, flag);
            && Close(w', fd).0 == 0
            && Close(w', fd).1 == if fd < |w.files| then w else w.(files := w.files + [CLOSED])
  {
    var (fd, w') := OpenFound(w, found, flag);
    var files := Close(w', fd).1.files;
    assert files == if fd < |w.files| then w.files else w.files + [CLOSED];
  }

  lemma WrapTwice(x: int, y: int)
    ensures Wrap(Wrap(x) + y) == Wrap(x + y)
  {
    var m := 0x1_0000_0000;
    assert x == x / m * m + x % m;
    Congruent(x + y, Wrap(x) + y, x / m, m);
  }

  lemma Congruent(a: int, b: int, q: int, m: int)
    requires m > 0 && a == b + q * m
    ensures a % m == b % m
  {
    var d := a / m - b / m - q;
    assert m * d == b % m - a % m;
    if d >= 1 {
      Geometry.Multiple(m, d);
    } else if d <= -1 {
      Geometry.Multiple(m, d);
    }
  }

  function At(w: World, fd: int, offset: nat): World
    requires IsOpen(w.files, fd)
  {
    w.(files := w.files[fd := w.files[fd].(offset := offset)])
  }

  lemma AtMeans(w: World, fd: int, p: nat, q: nat)
    requires IsOpen(w.files, fd) && IsInode(w.fs, w.files[fd].inode)
    ensures var w1 := At(w, fd, p);
            && IsOpen(w1.files, fd) && IsInode(w1.fs, w1.files[fd].inode) && w1.files[fd].offset == p
            && At(w1, fd, q) == At(w, fd, q)
    ensures At(w, fd, w.files[fd].offset) == w
  {
    var f := w.files[fd];
    assert w.files[fd := f.(offset := f.offset)] == w.files;
  }

  lemma SeekIs(w: World, fd: int, x: int)
    requires IsOpen(w.files, fd) && IsInode(w.fs, w.files[fd].inode)
    ensures Lseek(w, fd, x, SEEK_CUR) == (Wrap(w.files[fd].offset + x), At(w, fd, Wrap(w.files[fd].offset + x)))
  {
    hide Wrap;
  }

  /** A relative seek leaves the descriptor open on its inode. */
  lemma SeekStays(w: World, fd: int, x: int)
    requires IsOpen(w.files, fd) && IsInode(w.fs, w.files[fd].inode)
    ensures var w1 := Lseek(w, fd, x, SEEK_CUR).1;
            && IsOpen(w1.files, fd) && IsInode(w1.fs, w1.files[fd].inode)
            && w1.files[fd].offset == Wrap(w.files[fd].offset + x)
            && forall o: nat :: At(w1, fd, o) == At(w, fd, o)
  {
    hide Wrap, IsInode;
    SeekIs(w, fd, x);
    forall o: nat ensures At(At(w, fd, Wrap(w.files[fd].offset + x)), fd, o) == At(w, fd, o) {
      AtMeans(w, fd, Wrap(w.files[fd].offset + x), o);
    }
  }

  /** Two relative seeks are one by the sum, in spite of wrap-around. */
  lemma SeeksAdd(w: World, fd: int, x: int, y: int)
    requires IsOpen(w.files, fd) && IsInode(w.fs, w.files[fd].inode)
    ensures var w1 := Lseek(w, fd, x, SEEK_CUR).1;
            && IsOpen(w1.files, fd) && IsInode(w1.fs, w1.files[fd].inode)
            && Lseek(w1, fd, y, SEEK_CUR) == Lseek(w, fd, x + y, SEEK_CUR)
  {
    hide Wrap, Lseek, At, IsInode;
    WrapTwice(w.files[fd].offset + x, y);
    SeekStays(w, fd, x);
    SeekIs(w, fd, x + y);
    SeekIs(Lseek(w, fd, x, SEEK_CUR).1, fd, y);
    assert w.files[fd].offset + (x + y) == w.files[fd].offset + x + y;
  }

  /** A relative seek is undone by its negation. */
  lemma SeekUndone(w: World, fd: int, x: int)
    requires Good(w) && IsOpen(w.files, fd)
    ensures IsInode(w.fs, w.files[fd].inode)
    ensures var w1 := Lseek(w, fd, x, SEEK_CUR).1;
            && IsOpen(w1.files, fd) && IsInode(w1.fs, w1.files[fd].inode)
            && Lseek(w1, fd, -x, SEEK_CUR) == (w.files[fd].offset, w)
  {
    hide Good, Wrap, Lseek, At, IsInode;
    OpenIsInode(w, fd);
    OffsetWraps(w, fd);
    SeeksAdd(w, fd, x, -x);
    SeekIs(w, fd, x + -x);
    AtMeans(w, fd, 0, 0);
  }

  lemma OffsetWraps(w: World, fd: int)
    requires Good(w) && IsOpen(w.files, fd)
    ensures Wrap(w.files[fd].offset) == w.files[fd].offset
  {
    FdGood(w, fd);
  }

  /**
   * After seeking to the end a write appends, exactly if the new size fits 32 bits: the new content is the old one
   * followed by the bytes.
   */
  lemma SeekEndAppends(w: World, fd: int, bytes: seq<byte>, now: nat)
    requires Good(w) && IsOpen(w.files, fd) && bytes != [] && Writeable(w.files[fd].flag)
    requires IsInode(w.fs, w.files[fd].inode) && CanWriteFd(Lseek(w, fd, 0, SEEK_END).1, fd, bytes, now)
    ensures var ino := w.files[fd].inode;
            var w' := Write(Lseek(w, fd, 0, SEEK_END).1, fd, bytes, now).1;
            && Readable(w.fs, ino) && Readable(w'.fs, ino)
            && (Content(w'.fs, ino) == Content(w.fs, ino) + bytes
                <==> |Content(w.fs, ino)| + |bytes| < 0x1_0000_0000)
  {
    hide Good, Write, CanWriteFd, NamesKept, FilesKept, Overwritten, Flat, Direct;
    var ino, w1 := w.files[fd].inode, Lseek(w, fd, 0, SEEK_END).1;
    FdContent(w, fd);
    LseekCallKeeps(w, fd, 0, SEEK_END);
    assert w1.files[fd].offset == |Content(w.fs, ino)| && w1.files[fd].inode == ino;
    hide Content, Readable, Wrap, Lseek;
    WriteThrough(w1, fd, bytes, now);
    WriteCallKeeps(w1, fd, bytes, now);
    var w' := Write(w1, fd, bytes, now).1;
    FdContent(w', fd);
    if |Content(w.fs, ino)| + |bytes| < 0x1_0000_0000 {
      AppendedContent(Content(w.fs, ino), Content(w'.fs, ino), bytes);
    }
  }

  lemma AppendedContent(before: seq<byte>, after: seq<byte>, bytes: seq<byte>)
    requires Overwritten(before, after, |before|, bytes)
    ensures after == before + bytes
  {
    assert after == after[..|before|] + after[|before|..|before| + |bytes|];
    assert after[..|before|] == before;
  }

  /**
   * Seeking to -1 moves to the last 32-bit offset.  Five bytes written there are lost although the call reports them
   * as written: the size is only extended to the wrapped end 4, and all old bytes stay.
   */
  lemma WriteFromMinusOne(w: World, fd: int, bytes: seq<byte>, now: nat)
    requires Good(w) && IsOpen(w.files, fd) && Writeable(w.files[fd].flag) && |bytes| == 5 && Word(now)
    requires IsInode(w.fs, w.files[fd].inode)
    requires CanGrow(w.fs, w.files[fd].inode, Shortage(w.fs, w.files[fd].inode, 4))
    ensures var ino := w.files[fd].inode;
            var (at, w1) := Lseek(w, fd, -1, SEEK_SET);
            && at == 0xFFFF_FFFF && CanWriteFd(w1, fd, bytes, now)
            && var (n, w2) := Write(w1, fd, bytes, now);
               && n == 5 && w2.files[fd].offset == 4 && Readable(w.fs, ino) && Readable(w2.fs, ino)
               && Overwritten(Content(w.fs, ino), Content(w2.fs, ino), 4, [])
               && !Overwritten(Content(w.fs, ino), Content(w2.fs, ino), 0xFFFF_FFFF, bytes)
  {
    hide Inv, LiveFile, CanGrow, Shortage, WriteFile, CanWrite, Content, Readable, Overwritten;
    var ino, w1 := w.files[fd].inode, Lseek(w, fd, -1, SEEK_SET).1;
    LseekCallKeeps(w, fd, -1, SEEK_SET);
    assert w1.files[fd] == w.files[fd].(offset := 0xFFFF_FFFF) && Wrap(0xFFFF_FFFF + 5) == 4;
    FdGood(w, fd);
    WritePossible(w.fs, ino, 0xFFFF_FFFF, 5, now);
    hide Good, Wrap, NamesKept, FilesKept;
    WriteThrough(w1, fd, bytes, now);
  }
}
