/**
 * The block map of an inode: 12 direct pointers and three trees of pointer blocks.  `ptr(b)` is the
 * list of pointers stored in block `b`, of any length `fan`, with any contents.
 */
module PointerTree {
  import opened Inodes
  import Geometry

  ghost predicate Uniform(ptr: nat -> seq<nat>, fan: nat) {
    fan > 0 && forall b :: |ptr(b)| == fan
  }

  // ----- the recursive traversal -----

  /** Appends the blocks below `b` to `acc`, and says whether the traversal goes on. */
  function Walk(ptr: nat -> seq<nat>, b: nat, level: nat, acc: seq<nat>): (bool, seq<nat>)
    decreases level, 0, b
  {
    if b == 0 then (false, acc)
    else if level == 0 then (true, acc + [b])
    else WalkFrom(ptr, ptr(b), 0, level - 1, acc)
  }

  function WalkFrom(ptr: nat -> seq<nat>, pointers: seq<nat>, i: nat, level: nat, acc: seq<nat>): (bool, seq<nat>)
    requires i <= |pointers|
    decreases level, 1 + |pointers| - i
  {
    if i == |pointers| then (true, acc)
    else
      var (flag, acc') := Walk(ptr, pointers[i], level, acc);
      if flag then WalkFrom(ptr, pointers, i + 1, level, acc') else (false, acc')
  }

  /** Direct pointers have level 0, the last three 1, 2 and 3. */
  function LevelOf(i: nat): nat {
    if i < DIRECT_BLOCKS then 0 else i - DIRECT_BLOCKS + 1
  }

  function WalkRoots(ptr: nat -> seq<nat>, roots: seq<nat>, i: nat, acc: seq<nat>): seq<nat>
    requires i <= |roots|
    decreases |roots| - i
  {
    if i == |roots| then acc
    else
      var (flag, acc') := Walk(ptr, roots[i], LevelOf(i), acc);
      if flag then WalkRoots(ptr, roots, i + 1, acc') else acc'
  }

  /** All blocks of an inode, in the order in which the traversal collects them. */
  function Enumerate(ptr: nat -> seq<nat>, roots: seq<nat>): seq<nat> {
    WalkRoots(ptr, roots, 0, [])
  }

  // ----- lookup by position -----

  function Pow(fan: nat, level: nat): (n: nat)
    ensures fan > 0 ==> n > 0
  {
    if level == 0 then 1 else fan * Pow(fan, level - 1)
  }

  /** The `k`-th block below `b`, by division into subtrees; 0 as soon as the path meets a zero pointer. */
  ghost function LookupBelow(ptr: nat -> seq<nat>, fan: nat, b: nat, level: nat, k: nat): nat
    requires Uniform(ptr, fan) && k < Pow(fan, level)
    decreases level, b
  {
    if b == 0 then 0
    else if level == 0 then b
    else
      var size := Pow(fan, level - 1);
      Geometry.DivBound(k, size, fan);
      LookupBelow(ptr, fan, ptr(b)[k / size], level - 1, k % size)
  }

  function Capacity(fan: nat): nat {
    DIRECT_BLOCKS + Pow(fan, 1) + Pow(fan, 2) + Pow(fan, 3)
  }

  /** The `k`-th block of the file, by the index arithmetic of the on-disk format. */
  ghost function Lookup(ptr: nat -> seq<nat>, fan: nat, roots: seq<nat>, k: nat): nat
    requires Uniform(ptr, fan) && |roots| == N_BLOCKS && k < Capacity(fan)
  {
    if k < DIRECT_BLOCKS then roots[k]
    else
      var k1 := k - DIRECT_BLOCKS;
      if k1 < Pow(fan, 1) then LookupBelow(ptr, fan, roots[12], 1, k1)
      else
        var k2 := k1 - Pow(fan, 1);
        if k2 < Pow(fan, 2) then LookupBelow(ptr, fan, roots[13], 2, k2)
        else LookupBelow(ptr, fan, roots[14], 3, k2 - Pow(fan, 2))
  }

  // ----- both read the same row of leaves -----

  /** The leaves below `b`, with zeros for everything under a zero pointer. */
  ghost function Leaves(ptr: nat -> seq<nat>, fan: nat, b: nat, level: nat): (s: seq<nat>)
    requires Uniform(ptr, fan)
    ensures |s| == Pow(fan, level)
    decreases level, 0, b
  {
    if b == 0 then seq(Pow(fan, level), _ => 0)
    else if level == 0 then [b]
    else LeavesFrom(ptr, fan, ptr(b), 0, level - 1)
  }

  ghost function LeavesFrom(ptr: nat -> seq<nat>, fan: nat, pointers: seq<nat>, i: nat, level: nat): (s: seq<nat>)
    requires Uniform(ptr, fan) && i <= |pointers|
    ensures |s| == (|pointers| - i) * Pow(fan, level)
    decreases level, 1 + |pointers| - i
  {
    if i == |pointers| then []
    else
      assert (|pointers| - i) * Pow(fan, level) == Pow(fan, level) + (|pointers| - i - 1) * Pow(fan, level);
      Leaves(ptr, fan, pointers[i], level) + LeavesFrom(ptr, fan, pointers, i + 1, level)
  }

  function UpToZero(s: seq<nat>): (r: seq<nat>)
    ensures r <= s && 0 !in r
    ensures |r| < |s| ==> s[|r|] == 0
  {
    if s == [] || s[0] == 0 then [] else [s[0]] + UpToZero(s[1..])
  }

  lemma {:induction false} UpToZeroConcat(s: seq<nat>, t: seq<nat>)
    ensures UpToZero(s + t) == if 0 in s then UpToZero(s) else s + UpToZero(t)
  {
    if s == [] {
      assert s + t == t;
    } else {
      assert (s + t)[1..] == s[1..] + t;
      UpToZeroConcat(s[1..], t);
    }
  }

  lemma JoinUpToZero(acc: seq<nat>, s: seq<nat>, t: seq<nat>)
    ensures 0 in s + t <==> 0 in s || 0 in t
    ensures 0 in s ==> UpToZero(s + t) == UpToZero(s)
    ensures 0 !in s ==> UpToZero(s) == s && acc + UpToZero(s + t) == acc + s + UpToZero(t)
  {
    UpToZeroConcat(s, t);
    if 0 !in s {
      assert acc + (s + UpToZero(t)) == acc + s + UpToZero(t);
    }
  }

  lemma {:induction false} WalkLeaves(ptr: nat -> seq<nat>, fan: nat, b: nat, level: nat, acc: seq<nat>)
    requires Uniform(ptr, fan)
    ensures Walk(ptr, b, level, acc) == (0 !in Leaves(ptr, fan, b, level), acc + UpToZero(Leaves(ptr, fan, b, level)))
    decreases level, 0
  {
    if b == 0 {
      assert Leaves(ptr, fan, b, level)[0] == 0;
      assert acc + [] == acc;
    } else if level == 0 {
      assert [b][1..] == [] && UpToZero([b]) == [b];
    } else {
      WalkLeavesFrom(ptr, fan, ptr(b), 0, level - 1, acc);
    }
  }

  lemma {:induction false} WalkLeavesFrom(ptr: nat -> seq<nat>, fan: nat, pointers: seq<nat>, i: nat, level: nat,
                                          acc: seq<nat>)
    requires Uniform(ptr, fan) && i <= |pointers|
    ensures var leaves := LeavesFrom(ptr, fan, pointers, i, level);
            WalkFrom(ptr, pointers, i, level, acc) == (0 !in leaves, acc + UpToZero(leaves))
    decreases level, 1 + |pointers| - i
  {
    if i < |pointers| {
      hide Leaves, UpToZero, Walk;
      var first, rest := Leaves(ptr, fan, pointers[i], level), LeavesFrom(ptr, fan, pointers, i + 1, level);
      WalkLeaves(ptr, fan, pointers[i], level, acc);
      JoinUpToZero(acc, first, rest);
      if 0 !in first {
        WalkLeavesFrom(ptr, fan, pointers, i + 1, level, acc + first);
      }
    } else {
      assert LeavesFrom(ptr, fan, pointers, i, level) == [] && acc + [] == acc;
    }
  }

  lemma {:induction false} LookupLeaves(ptr: nat -> seq<nat>, fan: nat, b: nat, level: nat, k: nat)
    requires Uniform(ptr, fan) && k < Pow(fan, level)
    ensures Leaves(ptr, fan, b, level)[k] == LookupBelow(ptr, fan, b, level, k)
    decreases level, 0
  {
    if b != 0 && level > 0 {
      var size := Pow(fan, level - 1);
      Geometry.DivBound(k, size, fan);
      LookupLeavesFrom(ptr, fan, ptr(b), 0, level - 1, k / size, k % size);
    }
  }

  lemma {:induction false} LookupLeavesFrom(ptr: nat -> seq<nat>, fan: nat, pointers: seq<nat>, i: nat, level: nat,
                                            q: nat, r: nat)
    requires Uniform(ptr, fan) && i + q < |pointers| && r < Pow(fan, level)
    ensures q * Pow(fan, level) + r < (|pointers| - i) * Pow(fan, level)
    ensures LeavesFrom(ptr, fan, pointers, i, level)[q * Pow(fan, level) + r]
            == LookupBelow(ptr, fan, pointers[i + q], level, r)
    decreases level, 1 + |pointers| - i
  {
    var size := Pow(fan, level);
    Split(q, |pointers| - i, size);
    if q == 0 {
      LookupLeaves(ptr, fan, pointers[i], level, r);
    } else {
      LookupLeavesFrom(ptr, fan, pointers, i + 1, level, q - 1, r);
      Split(q - 1, |pointers| - i - 1, size);
      hide LookupBelow, Leaves, Pow;
    }
  }

  lemma Split(q: nat, n: nat, size: nat)
    requires q < n
    ensures (q + 1) * size == q * size + size <= n * size == (n - 1) * size + size
    ensures q == 0 ==> q * size == 0
  {
  }

  ghost function AllLeaves(ptr: nat -> seq<nat>, fan: nat, roots: seq<nat>): (s: seq<nat>)
    requires Uniform(ptr, fan) && |roots| == N_BLOCKS
    ensures |s| == Capacity(fan)
  {
    roots[..DIRECT_BLOCKS] + Leaves(ptr, fan, roots[12], 1) + Leaves(ptr, fan, roots[13], 2)
    + Leaves(ptr, fan, roots[14], 3)
  }

  /** The leaves of the roots from the `i`-th on. */
  ghost function RootLeaves(ptr: nat -> seq<nat>, fan: nat, roots: seq<nat>, i: nat): seq<nat>
    requires Uniform(ptr, fan) && i <= |roots|
    decreases |roots| - i
  {
    if i == |roots| then [] else Leaves(ptr, fan, roots[i], LevelOf(i)) + RootLeaves(ptr, fan, roots, i + 1)
  }

  lemma {:induction false} WalkRootsLeaves(ptr: nat -> seq<nat>, fan: nat, roots: seq<nat>, i: nat, acc: seq<nat>)
    requires Uniform(ptr, fan) && i <= |roots|
    ensures WalkRoots(ptr, roots, i, acc) == acc + UpToZero(RootLeaves(ptr, fan, roots, i))
    decreases |roots| - i
  {
    if i < |roots| {
      hide Leaves, UpToZero, Walk, LevelOf;
      var first, rest := Leaves(ptr, fan, roots[i], LevelOf(i)), RootLeaves(ptr, fan, roots, i + 1);
      WalkLeaves(ptr, fan, roots[i], LevelOf(i), acc);
      JoinUpToZero(acc, first, rest);
      if 0 !in first {
        WalkRootsLeaves(ptr, fan, roots, i + 1, acc + first);
      }
    } else {
      assert RootLeaves(ptr, fan, roots, i) == [] && UpToZero([]) == [];
    }
  }

  lemma {:induction false} DirectLeaves(ptr: nat -> seq<nat>, fan: nat, roots: seq<nat>, i: nat)
    requires Uniform(ptr, fan) && |roots| == N_BLOCKS && i <= DIRECT_BLOCKS
    ensures RootLeaves(ptr, fan, roots, i) == roots[i..DIRECT_BLOCKS] + RootLeaves(ptr, fan, roots, DIRECT_BLOCKS)
    decreases DIRECT_BLOCKS - i
  {
    if i < DIRECT_BLOCKS {
      DirectLeaves(ptr, fan, roots, i + 1);
      assert Pow(fan, 0) == 1;
      assert Leaves(ptr, fan, roots[i], 0) == [roots[i]];
      hide Leaves, Pow;
      assert roots[i..DIRECT_BLOCKS] == [roots[i]] + roots[i + 1..DIRECT_BLOCKS];
    }
  }

  lemma RootLeavesAll(ptr: nat -> seq<nat>, fan: nat, roots: seq<nat>)
    requires Uniform(ptr, fan) && |roots| == N_BLOCKS
    ensures RootLeaves(ptr, fan, roots, 0) == AllLeaves(ptr, fan, roots)
  {
    hide Leaves, Pow, Uniform;
    DirectLeaves(ptr, fan, roots, 0);
    var l1, l2, l3 := Leaves(ptr, fan, roots[12], 1), Leaves(ptr, fan, roots[13], 2), Leaves(ptr, fan, roots[14], 3);
    assert RootLeaves(ptr, fan, roots, 14) == l3 + RootLeaves(ptr, fan, roots, 15) == l3;
    assert RootLeaves(ptr, fan, roots, 13) == l2 + l3;
    assert RootLeaves(ptr, fan, roots, 12) == l1 + (l2 + l3);
  }

  lemma LookupAllLeaves(ptr: nat -> seq<nat>, fan: nat, roots: seq<nat>, k: nat)
    requires Uniform(ptr, fan) && |roots| == N_BLOCKS && k < Capacity(fan)
    ensures AllLeaves(ptr, fan, roots)[k] == Lookup(ptr, fan, roots, k)
  {
    var k1 := k - DIRECT_BLOCKS;
    if k1 >= 0 {
      var k2 := k1 - Pow(fan, 1);
      if k2 < 0 {
        LookupLeaves(ptr, fan, roots[12], 1, k1);
      } else if k2 < Pow(fan, 2) {
        LookupLeaves(ptr, fan, roots[13], 2, k2);
      } else {
        LookupLeaves(ptr, fan, roots[14], 3, k2 - Pow(fan, 2));
      }
    }
  }

  /**
   * The traversal returns exactly the blocks that lookup by position gives for 0, 1, 2, ..., and stops at the
   * first position whose path meets a zero pointer, or after all of them.
   */
  lemma EnumerationIsLookup(ptr: nat -> seq<nat>, fan: nat, roots: seq<nat>)
    requires Uniform(ptr, fan) && |roots| == N_BLOCKS
    ensures var e := Enumerate(ptr, roots);
            && |e| <= Capacity(fan)
            && (forall k :: 0 <= k < |e| ==> e[k] == Lookup(ptr, fan, roots, k) != 0)
            && (|e| < Capacity(fan) ==> Lookup(ptr, fan, roots, |e|) == 0)
  {
    var e, all := Enumerate(ptr, roots), AllLeaves(ptr, fan, roots);
    WalkRootsLeaves(ptr, fan, roots, 0, []);
    RootLeavesAll(ptr, fan, roots);
    assert e == UpToZero(all);
    forall k | 0 <= k < |e| ensures e[k] == Lookup(ptr, fan, roots, k) != 0 {
      LookupAllLeaves(ptr, fan, roots, k);
      assert e[k] == all[k];
    }
    if |e| < Capacity(fan) {
      LookupAllLeaves(ptr, fan, roots, |e|);
    }
  }

  /** An inode whose pointers from the `n`-th on are zero, `n` at most 12, lists its first `n` pointers. */
  lemma DirectEnumeration(ptr: nat -> seq<nat>, roots: seq<nat>, n: nat)
    requires |roots| == N_BLOCKS && n <= DIRECT_BLOCKS
    requires (forall k :: 0 <= k < n ==> roots[k] != 0) && roots[n] == 0
    ensures Enumerate(ptr, roots) == roots[..n]
  {
    DirectWalk(ptr, roots, n, 0, []);
  }

  lemma {:induction false} DirectWalk(ptr: nat -> seq<nat>, roots: seq<nat>, n: nat, i: nat, acc: seq<nat>)
    requires |roots| == N_BLOCKS && i <= n <= DIRECT_BLOCKS
    requires (forall k :: 0 <= k < n ==> roots[k] != 0) && roots[n] == 0
    ensures WalkRoots(ptr, roots, i, acc) == acc + roots[i..n]
    decreases n - i
  {
    if i < n {
      assert Walk(ptr, roots[i], LevelOf(i), acc) == (true, acc + [roots[i]]);
      DirectWalk(ptr, roots, n, i + 1, acc + [roots[i]]);
      assert acc + [roots[i]] + roots[i + 1..n] == acc + roots[i..n];
    }
  }

  // ----- pointer blocks that are not themselves listed -----

  /** None of the listed blocks serves as a pointer block below `b`. */
  ghost predicate Apart(ptr: nat -> seq<nat>, b: nat, level: nat, blocks: seq<nat>)
    decreases level, blocks
  {
    b == 0 || level == 0 || (b !in blocks && forall k :: 0 <= k < |ptr(b)| ==> Apart(ptr, ptr(b)[k], level - 1, blocks))
  }

  lemma {:induction false} WalkFrame(ptr: nat -> seq<nat>, ptr': nat -> seq<nat>, b: nat, level: nat, acc: seq<nat>,
                                     blocks: seq<nat>)
    requires Apart(ptr, b, level, blocks) && forall c :: c !in blocks ==> ptr'(c) == ptr(c)
    ensures Walk(ptr', b, level, acc) == Walk(ptr, b, level, acc)
    decreases level, 0
  {
    if b != 0 && level > 0 {
      WalkFromFrame(ptr, ptr', ptr(b), 0, level - 1, acc, blocks);
    }
  }

  lemma {:induction false} WalkFromFrame(ptr: nat -> seq<nat>, ptr': nat -> seq<nat>, pointers: seq<nat>,
                                         i: nat, level: nat, acc: seq<nat>, blocks: seq<nat>)
    requires i <= |pointers| && forall k :: i <= k < |pointers| ==> Apart(ptr, pointers[k], level, blocks)
    requires forall c :: c !in blocks ==> ptr'(c) == ptr(c)
    ensures WalkFrom(ptr', pointers, i, level, acc) == WalkFrom(ptr, pointers, i, level, acc)
    decreases level, 1 + |pointers| - i
  {
    hide Apart;
    if i < |pointers| {
      WalkFrame(ptr, ptr', pointers[i], level, acc, blocks);
      WalkFromFrame(ptr, ptr', pointers, i + 1, level, Walk(ptr, pointers[i], level, acc).1, blocks);
    }
  }

  lemma {:induction false} WalkRootsFrame(ptr: nat -> seq<nat>, ptr': nat -> seq<nat>, roots: seq<nat>, i: nat,
                                          acc: seq<nat>, blocks: seq<nat>)
    requires i <= |roots| && forall k :: i <= k < |roots| ==> Apart(ptr, roots[k], LevelOf(k), blocks)
    requires forall c :: c !in blocks ==> ptr'(c) == ptr(c)
    ensures WalkRoots(ptr', roots, i, acc) == WalkRoots(ptr, roots, i, acc)
    decreases |roots| - i
  {
    hide Apart, Walk;
    if i < |roots| {
      WalkFrame(ptr, ptr', roots[i], LevelOf(i), acc, blocks);
      WalkRootsFrame(ptr, ptr', roots, i + 1, Walk(ptr, roots[i], LevelOf(i), acc).1, blocks);
    }
  }
}
