/** What `mkdir` answers and what it leaves: a chain of new directories, one inside the other. */
module DirChains {
  import opened Bytes
  import opened Geometry
  import opened Inodes
  import opened DirRecords
  import opened Fs
  import opened Invariant
  import opened DirUpdates
  import opened DirMaps
  import opened FileTheory
  import opened Creation
  import opened Balance
  import opened Fathers
  import opened Namespace
  import opened World
  import opened Runs
  import opened Paths
  import A = Allocation
  import BitMap

  // ----- what a successful call leaves -----

  /**
   * The first `k` components did not resolve before and lead to a new directory now: its father is where the components
   * before lead to, and the next component is its only entry.
   */
  ghost predicate NewDir(fs: Fs, fs': Fs, ino: nat, path: seq<Name>, k: nat)
    requires 0 < k <= |path|
  {
    && Walkable(fs, ino, path[..k]) && Walk(fs, ino, path[..k]) == None
    && Walkable(fs', ino, path[..k - 1]) && Walkable(fs', ino, path[..k]) && Walk(fs', ino, path[..k]).Some?
    && var d := Walk(fs', ino, path[..k]).value;
       && LiveDir(fs', d) && !Live(fs, d) && DirBlocksOk(fs', AllBlocks(fs', d))
       && Find(fs', d, DOT_DOT) == Walk(fs', ino, path[..k - 1])
       && OnlyEntry(fs', ino, d, path, k)
  }

  /** The directory has the next component as its only entry, if there is one. */
  ghost predicate OnlyEntry(fs: Fs, ino: nat, d: nat, path: seq<Name>, k: nat)
    requires k <= |path| && IsInode(fs, d) && DirBlocksOk(fs, AllBlocks(fs, d))
  {
    if k == |path| then MapOf(fs, d) == map[]
    else
      && Walkable(fs, ino, path[..k + 1]) && Walk(fs, ino, path[..k + 1]).Some?
      && MapOf(fs, d) == map[path[k] := Walk(fs, ino, path[..k + 1]).value]
  }

  ghost predicate Chained(fs: Fs, fs': Fs, ino: nat, path: seq<Name>) {
    forall k :: 0 < k <= |path| ==> NewDir(fs, fs', ino, path, k)
  }

  /** The directory in which the chain begins has got the first component as a new entry. */
  ghost predicate Headed(fs: Fs, fs': Fs, ino: nat, path: seq<Name>) {
    && LiveDir(fs, ino) && LiveDir(fs', ino) && DirBlocksOk(fs, AllBlocks(fs, ino))
    && DirBlocksOk(fs', AllBlocks(fs', ino)) && Find(fs', ino, DOT_DOT) == Find(fs, ino, DOT_DOT)
    && if path == [] then MapOf(fs', ino) == MapOf(fs, ino)
       else
         && Walkable(fs', ino, path[..1]) && Walk(fs', ino, path[..1]).Some? && path[0] !in MapOf(fs, ino)
         && MapOf(fs', ino) == MapOf(fs, ino)[path[0] := Walk(fs', ino, path[..1]).value]
  }

  /** Every other directory has the same names as before. */
  ghost predicate OthersSame(fs: Fs, fs': Fs, ino: nat) {
    forall a :: LiveDir(fs, a) && a != ino ==> SameNames(fs, fs', a)
  }

  lemma OthersSelf(fs: Fs, ino: nat)
    requires Inv(fs)
    ensures OthersSame(fs, fs, ino)
  {
    hide Inv, MapOf, AllBlocks, Find, LiveDir;
    forall a | LiveDir(fs, a) && a != ino ensures SameNames(fs, fs, a) {
      DirReadable(fs, a);
    }
  }

  lemma EnteredOthers(fs: Fs, fs': Fs, dir: nat, name: Name, nid: nat)
    requires Inv(fs) && Entered(fs, fs', dir, name, nid)
    ensures OthersSame(fs, fs', dir)
  {
    hide Inv, MapOf, AllBlocks, Find, LiveDir, Undisturbed, KeepsOthers;
    forall a | LiveDir(fs, a) && a != dir ensures SameNames(fs, fs', a) {
      OthersLive(fs, fs', dir, a);
      MapKept(fs, fs', a);
      FatherKept(fs, fs', a);
    }
  }

  lemma SameNamesTwice(fs: Fs, mid: Fs, fs': Fs, a: nat)
    requires SameNames(fs, mid, a) && SameNames(mid, fs', a)
    ensures SameNames(fs, fs', a)
  {
    hide MapOf, AllBlocks, Find, LiveDir;
  }

  /** A walk that starts with a name that is found goes on from there. */
  lemma WalkDown(fs: Fs, ino: nat, path: seq<Name>, c: nat, j: nat)
    requires LiveDir(fs, ino) && TreesOk(fs, GetInode(fs, ino)) && DirBlocksOk(fs, AllBlocks(fs, ino))
    requires 0 < j <= |path| && Find(fs, ino, path[0]) == Some(c)
    ensures Walkable(fs, ino, path[..j]) <==> Walkable(fs, c, path[1..][..j - 1])
    ensures Walkable(fs, c, path[1..][..j - 1]) ==>
              Walk(fs, ino, path[..j]) == Walk(fs, c, path[1..][..j - 1])
  {
    assert path[..j][1..] == path[1..][..j - 1];
    assert IsInode(fs, ino);
    hide Find, AllBlocks, TreesOk, LiveDir, DirBlocksOk, IsInode;
  }

  /** A walk that starts with a name that is not found fails. */
  lemma WalkStops(fs: Fs, ino: nat, path: seq<Name>)
    requires LiveDir(fs, ino) && TreesOk(fs, GetInode(fs, ino)) && DirBlocksOk(fs, AllBlocks(fs, ino))
    requires path != [] && Find(fs, ino, path[0]) == None
    ensures Walkable(fs, ino, path) && Walk(fs, ino, path) == None
  {
    assert IsInode(fs, ino);
    hide Find, AllBlocks, TreesOk, LiveDir, DirBlocksOk;
  }

  /** One more directory in front of a chain. */
  ghost predicate Fronted(fs: Fs, mid: Fs, fs': Fs, ino: nat, path: seq<Name>, c: nat) {
    && path != [] && Inv(fs) && Inv(mid) && Inv(fs') && Entered(fs, mid, ino, path[0], c) && LiveDir(mid, c)
    && DirBlocksOk(mid, AllBlocks(mid, c)) && MapOf(mid, c) == map[] && Find(mid, c, DOT_DOT) == Some(ino)
    && Headed(mid, fs', c, path[1..]) && OthersSame(mid, fs', c) && Chained(mid, fs', c, path[1..])
  }

  /** The start of the chain as it is in the end. */
  lemma FrontStays(fs: Fs, mid: Fs, fs': Fs, ino: nat, path: seq<Name>, c: nat)
    requires Fronted(fs, mid, fs', ino, path, c)
    ensures LiveDir(fs', ino) && TreesOk(fs', GetInode(fs', ino)) && DirBlocksOk(fs', AllBlocks(fs', ino))
    ensures Find(fs', ino, path[0]) == Some(c) && SameNames(mid, fs', ino)
    ensures IsInode(fs', ino) && IsInode(fs', c) && LiveDir(fs, ino) && DirBlocksOk(fs, AllBlocks(fs, ino))
    ensures TreesOk(fs, GetInode(fs, ino)) && Find(fs, ino, path[0]) == None
  {
    hide Inv, MapOf, AllBlocks, Find, TreesOk, KeepsOthers, NoneBorn, Chained, Undisturbed;
    assert SameNames(mid, fs', ino);
    DirReadable(fs, ino);
    DirReadable(fs', ino);
    FindInMap(fs, ino, path[0]);
    FindInMap(fs', ino, path[0]);
  }

  lemma FrontIsNew(fs: Fs, mid: Fs, fs': Fs, ino: nat, path: seq<Name>, c: nat)
    requires Fronted(fs, mid, fs', ino, path, c)
    ensures NewDir(fs, fs', ino, path, 1)
  {
    hide Inv, MapOf, AllBlocks, Find, TreesOk, Chained, OthersSame, LiveDir, DirBlocksOk, Live, KeepsOthers, NoneBorn;
    FrontStays(fs, mid, fs', ino, path, c);
    WalkStops(fs, ino, path[..1]);
    WalkDown(fs', ino, path, c, 1);
    if |path| > 1 {
      WalkDown(fs', ino, path, c, 2);
    }
    assert !Live(fs, c) && path[..0] == [];
  }

  lemma LaterIsNew(fs: Fs, mid: Fs, fs': Fs, ino: nat, path: seq<Name>, c: nat, k: nat)
    requires Fronted(fs, mid, fs', ino, path, c) && 1 < k <= |path|
    ensures NewDir(fs, fs', ino, path, k)
  {
    FrontStays(fs, mid, fs', ino, path, c);
    WalkStops(fs, ino, path[..k]);
    WalkDown(fs', ino, path, c, k - 1);
    WalkDown(fs', ino, path, c, k);
    if k < |path| {
      WalkDown(fs', ino, path, c, k + 1);
    }
    assert NewDir(mid, fs', c, path[1..], k - 1);
    assert forall a :: Live(fs, a) ==> Live(mid, a);
    hide Inv, MapOf, AllBlocks, Find, TreesOk, Entered, Chained, OthersSame, Headed, LiveDir, Live, DirBlocksOk, Walk,
         Walkable;
  }

  lemma FrontIsHead(fs: Fs, mid: Fs, fs': Fs, ino: nat, path: seq<Name>, c: nat)
    requires Fronted(fs, mid, fs', ino, path, c)
    ensures Headed(fs, fs', ino, path) && OthersSame(fs, fs', ino)
  {
    FrontStays(fs, mid, fs', ino, path, c);
    WalkDown(fs', ino, path, c, 1);
    EnteredOthers(fs, mid, ino, path[0], c);
    hide Inv, MapOf, AllBlocks, Find, TreesOk, Chained, DirBlocksOk, KeepsOthers, NoneBorn;
    forall a | LiveDir(fs, a) && a != ino ensures SameNames(fs, fs', a) {
      SameNamesTwice(fs, mid, fs', a);
    }
  }

  lemma ChainEmpty(fs: Fs, ino: nat)
    requires Inv(fs) && LiveDir(fs, ino)
    ensures Headed(fs, fs, ino, []) && OthersSame(fs, fs, ino) && Chained(fs, fs, ino, [])
  {
    hide Inv, MapOf, AllBlocks, Find, TreesOk;
    OthersSelf(fs, ino);
    DirReadable(fs, ino);
  }

  lemma ChainLonger(fs: Fs, mid: Fs, fs': Fs, ino: nat, path: seq<Name>, c: nat)
    requires Fronted(fs, mid, fs', ino, path, c)
    ensures Headed(fs, fs', ino, path) && OthersSame(fs, fs', ino) && Chained(fs, fs', ino, path)
  {
    hide Fronted, NewDir, Headed, OthersSame;
    FrontIsHead(fs, mid, fs', ino, path, c);
    forall k | 0 < k <= |path| ensures NewDir(fs, fs', ino, path, k) {
      if k == 1 {
        FrontIsNew(fs, mid, fs', ino, path, c);
      } else {
        LaterIsNew(fs, mid, fs', ino, path, c, k);
      }
    }
  }

  /** What the first step of a call leaves. */
  lemma FirstMade(fs: Fs, ino: nat, path: seq<Name>, now: nat)
    requires Inv(fs) && path != [] && CanMakeDirs(fs, ino, path, now) && FindOrMake(fs, ino, path[0], now).1
    ensures var (found, made, mid) := FindOrMake(fs, ino, path[0], now);
            && found.Some? && Inv(mid) && Entered(fs, mid, ino, path[0], found.value) && LiveDir(mid, found.value)
            && DirBlocksOk(mid, AllBlocks(mid, found.value)) && MapOf(mid, found.value) == map[]
            && Find(mid, found.value, DOT_DOT) == Some(ino)
            && CanMakeDirs(mid, found.value, path[1..], now)
            && MakeDirs(fs, ino, path, now) == MakeDirs(mid, found.value, path[1..], now)
  {
    hide Inv, MapOf, AllBlocks, Find, TreesOk, FindOrMake, CanMakeDir, LiveDir, KeepsOthers, NoneBorn;
    MakeDirKeeps(fs, ino, path[0], now);
  }

  /** A successful call makes the whole chain and changes no other directory. */
  lemma {:induction false} DirsChained(fs: Fs, ino: nat, path: seq<Name>, now: nat)
    requires Inv(fs) && LiveDir(fs, ino) && CanMakeDirs(fs, ino, path, now) && MakeDirs(fs, ino, path, now).0 == 0
    ensures var fs' := MakeDirs(fs, ino, path, now).1;
            Inv(fs') && Headed(fs, fs', ino, path) && OthersSame(fs, fs', ino) && Chained(fs, fs', ino, path)
    decreases |path|
  {
    if path == [] {
      ChainEmpty(fs, ino);
    } else {
      var (found, made, mid) := FindOrMake(fs, ino, path[0], now);
      assert made;
      hide Inv, MapOf, AllBlocks, Find, FindOrMake, CanMakeDirs, MakeDirs, LiveDir, Entered, Headed, OthersSame,
           Chained, DirBlocksOk;
      FirstMade(fs, ino, path, now);
      DirsChained(mid, found.value, path[1..], now);
      ChainLonger(fs, mid, MakeDirs(fs, ino, path, now).1, ino, path, found.value);
    }
  }

  /**
   * A call that answers 0 makes the whole path: no part of it resolved before, each part leads to a new directory now,
   * whose father is the directory before and whose only entry is the next one.  All other directories keep their
   * names, and every path that resolved goes on resolving to the same inode.
   */
  lemma MkdirMakes(fs: Fs, path: seq<Name>, now: nat)
    requires Inv(fs) && CanMakeDirs(fs, ROOT_INODE, path, now) && MakeDirs(fs, ROOT_INODE, path, now).0 == 0
    ensures var fs' := MakeDirs(fs, ROOT_INODE, path, now).1;
            && Inv(fs') && Chained(fs, fs', ROOT_INODE, path)
            && Headed(fs, fs', ROOT_INODE, path) && OthersSame(fs, fs', ROOT_INODE)
            && forall q :: Walkable(fs, ROOT_INODE, q) && Walk(fs, ROOT_INODE, q).Some? ==>
                 Walkable(fs', ROOT_INODE, q) && Walk(fs', ROOT_INODE, q) == Walk(fs, ROOT_INODE, q)
  {
    assert LiveDir(fs, ROOT_INODE);
    hide Inv, Headed, OthersSame, Chained, LiveDir, MakeDirs, CanMakeDirs, Walk, Walkable, Advances, NamesGrow,
         FilesKept, Tree, FathersAgree, Accounts;
    DirsChained(fs, ROOT_INODE, path, now);
    MakeDirsStep(fs, ROOT_INODE, path, now);
    var fs' := MakeDirs(fs, ROOT_INODE, path, now).1;
    forall q | Walkable(fs, ROOT_INODE, q) && Walk(fs, ROOT_INODE, q).Some?
      ensures Walkable(fs', ROOT_INODE, q) && Walk(fs', ROOT_INODE, q) == Walk(fs, ROOT_INODE, q)
    {
      WalkKept(fs, fs', ROOT_INODE, q);
    }
  }

  // ----- how far a call gets -----

  /** The number of inode numbers from 11 on whose bit is clear. */
  function FreeInodes(fs: Fs): nat {
    BitMap.Tally(fs.inodeBits, 10, false)
  }

  lemma {:induction false} TallyPositive(bits: seq<bool>, p: nat)
    ensures BitMap.Tally(bits, p, false) > 0 <==> exists j :: p <= j < |bits| && !bits[j]
    decreases |bits| - p
  {
    if p < |bits| {
      TallyPositive(bits, p + 1);
    }
  }

  lemma IallocCounts(fs: Fs)
    ensures Ialloc(fs).0 != 0 <==> FreeInodes(fs) > 0
    ensures Ialloc(fs).0 != 0 ==> FreeInodes(Ialloc(fs).1) == FreeInodes(fs) - 1
    ensures Ialloc(fs).0 != 0 <==> exists j :: 10 <= j < |fs.inodeBits| && !fs.inodeBits[j]
  {
    hide BitMap.Tally;
    var nid := Ialloc(fs).0;
    TallyPositive(fs.inodeBits, 10);
    if nid != 0 {
      A.TallySet(fs.inodeBits, 10, nid - 1);
    }
  }

  /** The number of components before the first "." or "..". */
  function Ordinary(path: seq<Name>): (n: nat)
    ensures n <= |path|
    ensures n < |path| ==> IsDot(path[n])
    ensures forall k :: 0 <= k < n ==> !IsDot(path[k])
  {
    if path == [] || IsDot(path[0]) then 0 else 1 + Ordinary(path[1..])
  }

  /** The number of directories that a call makes. */
  function Makes(fs: Fs, ino: nat, path: seq<Name>): nat
    requires path != [] ==> IsInode(fs, ino) && DirBlocksOk(fs, AllBlocks(fs, ino))
  {
    if path == [] || path[0] in MapOf(fs, ino) then 0 else Min(FreeInodes(fs), Ordinary(path))
  }

  lemma MadeIff(fs: Fs, dir: nat, name: Name, now: nat)
    requires Inv(fs) && LiveDir(fs, dir) && CanMakeDir(fs, dir, name, now)
    ensures DirBlocksOk(fs, AllBlocks(fs, dir))
    ensures FindOrMake(fs, dir, name, now).1
        <==> !IsDot(name) && name !in MapOf(fs, dir) && FreeInodes(fs) > 0
    ensures FindOrMake(fs, dir, name, now).1 ==>
              FreeInodes(FindOrMake(fs, dir, name, now).2) == FreeInodes(fs) - 1
    ensures !FindOrMake(fs, dir, name, now).1 ==> FindOrMake(fs, dir, name, now).2 == fs
  {
    hide Inv, MapOf, AllBlocks, Find, LiveDir, AddEntry, CanAddEntry, BornDir, NextFreeInode, BitMap.Tally;
    FindInMap(fs, dir, name);
    IallocCounts(fs);
    FindOrMakeFrame(fs, dir, name, now);
  }

  /** Nothing is made in the directory. */
  lemma MakesNone(fs: Fs, ino: nat, path: seq<Name>, now: nat)
    requires Inv(fs) && path != [] && CanMakeDirs(fs, ino, path, now) && !FindOrMake(fs, ino, path[0], now).1
    ensures DirBlocksOk(fs, AllBlocks(fs, ino)) && Makes(fs, ino, path) == 0
    ensures MakeDirs(fs, ino, path, now) == (-1, fs)
  {
    hide Inv, MapOf, AllBlocks, Find, TreesOk, FindOrMake, CanMakeDir, FreeInodes;
    MadeIff(fs, ino, path[0], now);
  }

  /** The first of them is made. */
  lemma MakesMore(fs: Fs, ino: nat, path: seq<Name>, now: nat)
    requires Inv(fs) && path != [] && CanMakeDirs(fs, ino, path, now) && FindOrMake(fs, ino, path[0], now).1
    ensures DirBlocksOk(fs, AllBlocks(fs, ino))
    ensures var (found, made, mid) := FindOrMake(fs, ino, path[0], now);
            && found.Some? && (path[1..] != [] ==> DirBlocksOk(mid, AllBlocks(mid, found.value)))
            && IsInode(mid, found.value)
            && Makes(fs, ino, path) == 1 + Makes(mid, found.value, path[1..])
  {
    hide Inv, MapOf, AllBlocks, Find, TreesOk, FindOrMake, CanMakeDir, FreeInodes, Entered, MakeDirs;
    MadeIff(fs, ino, path[0], now);
    FirstMade(fs, ino, path, now);
  }

  /** The call answers as if it had been asked for the first `n` components, unless these are all. */
  ghost predicate AsFar(fs: Fs, ino: nat, path: seq<Name>, now: nat, n: nat)
    requires CanMakeDirs(fs, ino, path, now)
  {
    && n <= |path| && CanMakeDirs(fs, ino, path[..n], now) && MakeDirs(fs, ino, path[..n], now).0 == 0
    && MakeDirs(fs, ino, path, now) == (if n == |path| then 0 else -1, MakeDirs(fs, ino, path[..n], now).1)
  }

  lemma OneFarther(fs: Fs, ino: nat, path: seq<Name>, now: nat, n: nat)
    requires path != [] && CanMakeDirs(fs, ino, path, now) && FindOrMake(fs, ino, path[0], now).1
    requires var (found, made, mid) := FindOrMake(fs, ino, path[0], now);
             found.Some? && CanMakeDirs(mid, found.value, path[1..], now) && AsFar(mid, found.value, path[1..], now, n)
    ensures AsFar(fs, ino, path, now, n + 1)
  {
    hide FindOrMake, CanMakeDir, LiveDir, TreesOk;
    assert path[..n + 1][1..] == path[1..][..n] && path[..n + 1][0] == path[0];
  }

  lemma NoFarther(fs: Fs, ino: nat, path: seq<Name>, now: nat)
    requires CanMakeDirs(fs, ino, path, now) && (path == [] || MakeDirs(fs, ino, path, now) == (-1, fs))
    ensures AsFar(fs, ino, path, now, 0)
  {
    hide FindOrMake, CanMakeDir, LiveDir, TreesOk;
    assert path[..0] == [];
  }

  lemma FirstCan(fs: Fs, ino: nat, path: seq<Name>, now: nat)
    requires path != [] && CanMakeDirs(fs, ino, path, now)
    ensures IsInode(fs, ino) && DirBlocksOk(fs, AllBlocks(fs, ino)) && CanMakeDir(fs, ino, path[0], now)
  {
    hide FindOrMake, TreesOk, AllBlocks, DirBlocksOk, Ok, IsFree;
  }

  /**
   * A call makes the directories of its path one after the other up to the first dot component or until the inodes run
   * out, but none if the first name exists; it answers 0 exactly if it made them all.
   */
  lemma {:induction false} MakesAsFar(fs: Fs, ino: nat, path: seq<Name>, now: nat)
    requires Inv(fs) && CanMakeDirs(fs, ino, path, now)
    ensures path != [] ==> IsInode(fs, ino) && DirBlocksOk(fs, AllBlocks(fs, ino))
    ensures AsFar(fs, ino, path, now, Makes(fs, ino, path))
    decreases |path|
  {
    hide Inv, MapOf, AllBlocks, Find, FindOrMake, CanMakeDirs, CanMakeDir, MakeDirs, LiveDir, Entered, DirBlocksOk,
         AsFar, FreeInodes, Ordinary;
    if path == [] {
      NoFarther(fs, ino, path, now);
    } else {
      FirstCan(fs, ino, path, now);
      var (found, made, mid) := FindOrMake(fs, ino, path[0], now);
      hide Makes;
      if made {
        MakesMore(fs, ino, path, now);
        FirstMade(fs, ino, path, now);
        MakesAsFar(mid, found.value, path[1..], now);
        OneFarther(fs, ino, path, now, Makes(mid, found.value, path[1..]));
      } else {
        MakesNone(fs, ino, path, now);
        NoFarther(fs, ino, path, now);
      }
    }
  }

  /** `mkdir` answers 0 exactly if it can make every component anew, and -1 otherwise. */
  lemma MkdirSucceeds(fs: Fs, path: seq<Name>, now: nat)
    requires Inv(fs) && CanMakeDirs(fs, ROOT_INODE, path, now)
    ensures IsInode(fs, ROOT_INODE) && DirBlocksOk(fs, AllBlocks(fs, ROOT_INODE))
    ensures MakeDirs(fs, ROOT_INODE, path, now).0 == 0
        <==> path == [] || (&& path[0] !in MapOf(fs, ROOT_INODE) && (forall k :: 0 <= k < |path| ==> !IsDot(path[k]))
                            && BitMap.Tally(fs.inodeBits, 10, false) >= |path|)
    ensures MakeDirs(fs, ROOT_INODE, path, now).0 in {0, -1}
  {
    assert LiveDir(fs, ROOT_INODE);
    hide Inv, MapOf, AllBlocks, LiveDir, MakeDirs, CanMakeDirs, BitMap.Tally, Find, TreesOk;
    DirReadable(fs, ROOT_INODE);
    MakesAsFar(fs, ROOT_INODE, path, now);
    hide DirBlocksOk, IsInode;
  }
}
