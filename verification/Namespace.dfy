/** The directories form a tree with the root on top: every live inode has exactly one path, and ".." leads back. */
module Namespace {
  import opened Bytes
  import opened Geometry
  import opened Inodes
  import opened DirRecords
  import opened Fs
  import opened Invariant
  import opened DirUpdates
  import opened DirMaps
  import opened Files
  import opened Creation
  import A = Allocation
  import B = DirBlock
  import D = Directories

  /** Directory `d` has the name `s` for inode `a`. */
  ghost predicate Names(fs: Fs, d: nat, s: Name, a: nat) {
    LiveDir(fs, d) && DirBlocksOk(fs, AllBlocks(fs, d)) && s in MapOf(fs, d) && MapOf(fs, d)[s] == a
  }

  /** The ".." of directory `a` leads to `d`. */
  ghost predicate FatherIs(fs: Fs, a: nat, d: nat) {
    LiveDir(fs, a) && DirBlocksOk(fs, AllBlocks(fs, a)) && Find(fs, a, DOT_DOT) == Some(d)
  }

  /** From `d` on, one name after the other leads to `a`. */
  ghost predicate Leads(fs: Fs, d: nat, path: seq<Name>, a: nat)
    decreases |path|
  {
    if path == [] then d == a else exists b :: Names(fs, d, path[0], b) && Leads(fs, b, path[1..], a)
  }

  ghost predicate Reachable(fs: Fs, a: nat) {
    exists path :: Leads(fs, ROOT_INODE, path, a)
  }

  /** Every name belongs to a live inode other than the root, and no inode has two. */
  ghost predicate OneName(fs: Fs) {
    && (forall d, s, a :: Names(fs, d, s, a) ==> Live(fs, a) && a != ROOT_INODE)
    && (forall d, s, e, t, a :: Names(fs, d, s, a) && Names(fs, e, t, a) ==> d == e && s == t)
  }

  /** The ".." of every directory leads to where it has its name; that of the root to the root. */
  ghost predicate FathersRight(fs: Fs) {
    && FatherIs(fs, ROOT_INODE, ROOT_INODE)
    && (forall d, s, a :: Names(fs, d, s, a) && LiveDir(fs, a) ==> FatherIs(fs, a, d))
  }

  ghost predicate Tree(fs: Fs) {
    OneName(fs) && FathersRight(fs) && forall a :: Live(fs, a) ==> Reachable(fs, a)
  }

  // ----- dots are not names -----

  lemma {:induction false} NonDotMeans(recs: seq<Rec>)
    ensures forall k :: 0 <= k < |D.NonDot(recs)| ==> !IsDot(D.NonDot(recs)[k].name)
  {
    if recs != [] {
      NonDotMeans(recs[1..]);
    }
  }

  lemma {:induction false} ListingNoDots(fs: Fs, blocks: seq<nat>, i: nat)
    requires DirBlocksOk(fs, blocks) && i <= |blocks|
    ensures forall k :: 0 <= k < |D.Listing(fs, blocks, i)| ==> !IsDot(D.Listing(fs, blocks, i)[k].name)
    decreases |blocks| - i
  {
    hide D.NonDot, B.Chain, B.Parse, IsDot;
    if i < |blocks| {
      NonDotMeans(RecsOf(fs, blocks[i]));
      ListingNoDots(fs, blocks, i + 1);
    }
  }

  lemma NamesNoDots(fs: Fs, d: nat, s: Name)
    requires IsInode(fs, d) && DirBlocksOk(fs, AllBlocks(fs, d)) && s in MapOf(fs, d)
    ensures !IsDot(s)
  {
    hide D.AsMap, D.Listing, AllBlocks, DirBlocksOk, IsDot;
    D.MapOfList(D.Ordinary(fs, d), s);
    ListingNoDots(fs, AllBlocks(fs, d), 0);
  }

  // ----- what a tree means for paths -----

  /** The last step of a path. */
  lemma {:induction false} LastStep(fs: Fs, d: nat, path: seq<Name>, a: nat) returns (e: nat)
    requires path != [] && Leads(fs, d, path, a)
    ensures Leads(fs, d, path[..|path| - 1], e) && Names(fs, e, path[|path| - 1], a)
    decreases |path|
  {
    hide Names;
    var b :| Names(fs, d, path[0], b) && Leads(fs, b, path[1..], a);
    if |path| == 1 {
      e := d;
    } else {
      e := LastStep(fs, b, path[1..], a);
      assert path[..|path| - 1][1..] == path[1..][..|path| - 2];
    }
  }

  /** One step more. */
  lemma {:induction false} OneStepMore(fs: Fs, d: nat, path: seq<Name>, e: nat, s: Name, a: nat)
    requires Leads(fs, d, path, e) && Names(fs, e, s, a)
    ensures Leads(fs, d, path + [s], a)
    decreases |path|
  {
    hide Names;
    if path == [] {
      assert ([] + [s])[1..] == [];
      assert Leads(fs, a, [], a);
    } else {
      var b :| Names(fs, d, path[0], b) && Leads(fs, b, path[1..], e);
      OneStepMore(fs, b, path[1..], e, s, a);
      assert (path + [s])[1..] == path[1..] + [s];
    }
  }

  /** In a tree no inode has two paths. */
  lemma {:induction false} OnePath(fs: Fs, p: seq<Name>, q: seq<Name>, a: nat)
    requires OneName(fs) && Leads(fs, ROOT_INODE, p, a) && Leads(fs, ROOT_INODE, q, a)
    ensures p == q
    decreases |p|
  {
    hide Names, Leads;
    if p == [] || q == [] {
      OnlyEmpty(fs, p, q, a);
    } else {
      var d := LastStep(fs, ROOT_INODE, p, a);
      var e := LastStep(fs, ROOT_INODE, q, a);
      OnePath(fs, p[..|p| - 1], q[..|q| - 1], d);
      assert p == p[..|p| - 1] + [p[|p| - 1]] && q == q[..|q| - 1] + [q[|q| - 1]];
    }
  }

  lemma OnlyEmpty(fs: Fs, p: seq<Name>, q: seq<Name>, a: nat)
    requires OneName(fs) && Leads(fs, ROOT_INODE, p, a) && Leads(fs, ROOT_INODE, q, a) && (p == [] || q == [])
    ensures p == q
  {
    hide Names;
    assert a == ROOT_INODE;
    if p != [] {
      var d := LastStep(fs, ROOT_INODE, p, a);
    }
    if q != [] {
      var d := LastStep(fs, ROOT_INODE, q, a);
    }
  }

  // ----- how the tree grows -----

  /** The tree has got one more leaf: `nid`, under a name of `dir`. */
  ghost predicate LeafAdded(fs: Fs, fs': Fs, dir: nat, name: Name, nid: nat) {
    && Live(fs, dir) && !Live(fs, nid) && nid != ROOT_INODE && (forall a :: Live(fs', a) <==> Live(fs, a) || a == nid)
    && (forall d, s, a :: Names(fs', d, s, a) <==> Names(fs, d, s, a) || (d == dir && s == name && a == nid))
    && (forall a :: Live(fs, a) && LiveDir(fs', a) ==> LiveDir(fs, a))
    && (forall a, d :: FatherIs(fs, a, d) ==> FatherIs(fs', a, d))
    && (LiveDir(fs', nid) ==> FatherIs(fs', nid, dir))
  }

  lemma {:induction false} LeadsKept(fs: Fs, fs': Fs, d: nat, path: seq<Name>, a: nat)
    requires Leads(fs, d, path, a) && forall e, s, b :: Names(fs, e, s, b) ==> Names(fs', e, s, b)
    ensures Leads(fs', d, path, a)
    decreases |path|
  {
    hide Names;
    if path != [] {
      var b :| Names(fs, d, path[0], b) && Leads(fs, b, path[1..], a);
      LeadsKept(fs, fs', b, path[1..], a);
    }
  }

  lemma LeafReachable(fs: Fs, fs': Fs, dir: nat, name: Name, nid: nat, a: nat)
    requires Tree(fs) && LeafAdded(fs, fs', dir, name, nid) && Live(fs', a)
    ensures Reachable(fs', a)
  {
    hide Names, Live, LiveDir, FatherIs, Leads;
    var known := if a == nid then dir else a;
    var path :| Leads(fs, ROOT_INODE, path, known);
    LeadsKept(fs, fs', ROOT_INODE, path, known);
    if a == nid {
      OneStepMore(fs', ROOT_INODE, path, dir, name, nid);
    }
  }

  /** A tree with one more leaf is a tree. */
  lemma TreeGrows(fs: Fs, fs': Fs, dir: nat, name: Name, nid: nat)
    requires Tree(fs) && LeafAdded(fs, fs', dir, name, nid)
    ensures Tree(fs')
  {
    hide Names, Live, LiveDir, FatherIs, Reachable;
    forall a | Live(fs', a) ensures Reachable(fs', a) {
      LeafReachable(fs, fs', dir, name, nid, a);
    }
  }

  /** The same names, the same live inodes and the same fathers. */
  ghost predicate SameTree(fs: Fs, fs': Fs) {
    && (forall a :: Live(fs', a) <==> Live(fs, a)) && (forall a :: LiveDir(fs', a) <==> LiveDir(fs, a))
    && (forall d, s, a :: Names(fs', d, s, a) <==> Names(fs, d, s, a))
    && (forall a, d :: FatherIs(fs, a, d) ==> FatherIs(fs', a, d))
  }

  lemma TreeKept(fs: Fs, fs': Fs)
    requires Tree(fs) && SameTree(fs, fs')
    ensures Tree(fs')
  {
    hide Names, Live, LiveDir, FatherIs, Leads;
    forall a | Live(fs', a) ensures Reachable(fs', a) {
      var path :| Leads(fs, ROOT_INODE, path, a);
      LeadsKept(fs, fs', ROOT_INODE, path, a);
    }
  }

  // ----- the calls -----

  /** What an undisturbed inode keeps for the tree. */
  ghost predicate SamePlace(fs: Fs, fs': Fs, d: nat) {
    && (LiveDir(fs', d) <==> LiveDir(fs, d)) && (forall s, a :: Names(fs', d, s, a) <==> Names(fs, d, s, a))
    && (forall e :: FatherIs(fs, d, e) ==> FatherIs(fs', d, e))
  }

  lemma UndisturbedPlace(fs: Fs, fs': Fs, d: nat)
    requires Inv(fs) && Inv(fs') && Live(fs, d) && Live(fs', d) && Undisturbed(fs, fs', d)
    ensures SamePlace(fs, fs', d)
  {
    hide Inv, Live, MapOf, AllBlocks, Find, DirBlocksOk, Undisturbed;
    UndisturbedMeans(fs, fs', d);
    if LiveDir(fs, d) {
      MapKept(fs, fs', d);
      FatherKept(fs, fs', d);
    }
  }

  /** If it is a directory, it is empty and has the father `dir`. */
  ghost predicate EmptyUnder(fs: Fs, nid: nat, dir: nat) {
    LiveDir(fs, nid) ==> FatherIs(fs, nid, dir) && forall s, a :: !Names(fs, nid, s, a)
  }

  lemma NamesAfter(fs: Fs, fs': Fs, dir: nat, name: Name, nid: nat, d: nat, s: Name, a: nat)
    requires Entered(fs, fs', dir, name, nid) && EmptyUnder(fs', nid, dir) && dir != nid
    requires Live(fs, d) && d != dir ==> SamePlace(fs, fs', d)
    ensures Names(fs', d, s, a) <==> Names(fs, d, s, a) || (d == dir && s == name && a == nid)
  {
    hide Inv, MapOf, AllBlocks, Find, DirBlocksOk, Live, KeepsOthers, FatherIs;
    if d == dir || d == nid {
      hide SamePlace;
    } else {
      hide EmptyUnder;
    }
  }

  /** A directory entry for a new inode adds a leaf. */
  lemma EnteredAdds(fs: Fs, fs': Fs, dir: nat, name: Name, nid: nat)
    requires Inv(fs) && Entered(fs, fs', dir, name, nid) && EmptyUnder(fs', nid, dir)
    ensures LeafAdded(fs, fs', dir, name, nid)
  {
    hide Ok, A.MetaMarked, AllGood, AllDisjoint, MapOf, AllBlocks, Find, DirBlocksOk, Undisturbed, Live, Names;
    forall d | Live(fs, d) && d != dir ensures SamePlace(fs, fs', d) {
      UndisturbedPlace(fs, fs', d);
    }
    forall d, s, a
      ensures Names(fs', d, s, a) <==> Names(fs, d, s, a) || (d == dir && s == name && a == nid)
    {
      NamesAfter(fs, fs', dir, name, nid, d, s, a);
    }
    hide Inv, EmptyUnder;
    forall a | Live(fs, a) && a != dir
      ensures (LiveDir(fs', a) ==> LiveDir(fs, a)) && forall d :: FatherIs(fs, a, d) ==> FatherIs(fs', a, d)
    {
      assert SamePlace(fs, fs', a);
    }
  }

  /** A file whose bytes or times change leaves the tree as it is. */
  lemma FileChangeSame(fs: Fs, fs': Fs, ino: nat)
    requires Inv(fs) && Inv(fs') && LiveFile(fs, ino) && LiveFile(fs', ino) && Changes(fs, fs', ino)
    ensures SameTree(fs, fs')
  {
    hide Inv, MapOf, AllBlocks, Find, DirBlocksOk, Undisturbed, Live, Changes;
    ChangesKeepsOthers(fs, fs', ino);
    assert !LiveDir(fs, ino) && !LiveDir(fs', ino);
    forall d | Live(fs, d) ensures SamePlace(fs, fs', d) {
      if d != ino {
        UndisturbedPlace(fs, fs', d);
      }
    }
    forall d, s, a ensures Names(fs', d, s, a) <==> Names(fs, d, s, a) {
      assert Live(fs, d) ==> SamePlace(fs, fs', d);
    }
    forall a, d | FatherIs(fs, a, d) ensures FatherIs(fs', a, d) {
      assert SamePlace(fs, fs', a);
    }
    forall a ensures LiveDir(fs', a) <==> LiveDir(fs, a) {
      assert Live(fs, a) ==> SamePlace(fs, fs', a);
    }
  }

  /** A root without names is a tree. */
  lemma RootAlone(fs: Fs)
    requires Inv(fs) && (forall a :: Live(fs, a) ==> a == ROOT_INODE) && DirBlocksOk(fs, AllBlocks(fs, ROOT_INODE))
    requires MapOf(fs, ROOT_INODE) == map[] && Find(fs, ROOT_INODE, DOT_DOT) == Some(ROOT_INODE)
    ensures Tree(fs)
  {
    assert LiveDir(fs, ROOT_INODE);
    hide Inv, MapOf, AllBlocks, Find, DirBlocksOk, Live;
    assert Leads(fs, ROOT_INODE, [], ROOT_INODE);
  }
}
