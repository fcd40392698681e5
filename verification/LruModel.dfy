/**
 * The write-back cache as a value: which blocks are cached, newest first, with which bytes, which of
 * them are dirty, and what the disk below holds.  The class in Cache.dfy is proved to follow it.
 */
module LruModel {
  import opened Bytes

  datatype State = State(
    capacity: nat,
    order: seq<nat>,          // cached block numbers, most recently used first
    data: map<nat, Block>,
    dirty: set<nat>,
    disk: seq<Block>,
    diskReads: nat,             // disk block reads so far
    diskWrites: nat)             // disk block writes so far

  predicate Distinct<T(==)>(s: seq<T>) {
    forall i, j :: 0 <= i < j < |s| ==> s[i] != s[j]
  }

  ghost predicate Ok(s: State) {
    && s.capacity > 0
    && |s.order| <= s.capacity
    && Distinct(s.order)
    && (forall b :: b in s.data <==> b in s.order)
    && (forall b :: b in s.data ==> b < |s.disk|)
    && s.dirty <= s.data.Keys
    && forall b :: b in s.data && b !in s.dirty ==> s.data[b] == s.disk[b]
  }

  /** What a reader of the cache sees: the cached bytes of a block if there are any, else the disk's. */
  function View(s: State): (v: seq<Block>)
    ensures |v| == |s.disk|
  {
    seq(|s.disk|, b requires 0 <= b < |s.disk| => if b in s.data then s.data[b] else s.disk[b])
  }

  function Without(s: seq<nat>, x: nat): (r: seq<nat>)
    ensures |r| <= |s|
    ensures forall y :: y in r <==> y in s && y != x
  {
    if s == [] then [] else if s[0] == x then Without(s[1..], x) else [s[0]] + Without(s[1..], x)
  }

  function WriteBack(s: State, b: nat): State
    requires b in s.data && b < |s.disk|
  {
    if b in s.dirty
    then s.(disk := s.disk[b := s.data[b]], dirty := s.dirty - {b}, diskWrites := s.diskWrites + 1)
    else s
  }

  function Evict(s: State): State
    requires s.order != [] && s.order[|s.order| - 1] in s.data && s.order[|s.order| - 1] < |s.disk|
  {
    var victim := s.order[|s.order| - 1];
    var t := WriteBack(s, victim);
    t.(order := s.order[..|s.order| - 1], data := t.data - {victim})
  }

  /** Makes room for one more block if there is none. */
  function WithRoom(s: State): State
    requires Ok(s)
  {
    if |s.order| == s.capacity then Evict(s) else s
  }

  function Fetch(s: State, b: nat): State
    requires Ok(s) && b < |s.disk| && b !in s.data
  {
    Install(WithRoom(s), b)
  }

  function Install(s: State, b: nat): State
    requires b < |s.disk|
  {
    s.(order := [b] + s.order, data := s.data[b := s.disk[b]], diskReads := s.diskReads + 1)
  }

  function Cached(s: State, b: nat): State
    requires Ok(s) && b < |s.disk|
  {
    if b in s.data then s else Fetch(s, b)
  }

  function Touch(s: State, b: nat): State {
    s.(order := [b] + Without(s.order, b))
  }

  function ReadBlock(s: State, b: nat): State
    requires Ok(s) && b < |s.disk|
  {
    Touch(Cached(s, b), b)
  }

  function WriteBlock(s: State, b: nat, block: Block): State
    requires Ok(s) && b < |s.disk|
  {
    Touch(Store(Cached(s, b), b, block), b)
  }

  function Store(s: State, b: nat, block: Block): State {
    s.(data := s.data[b := block], dirty := s.dirty + {b})
  }

  function FlushAll(s: State): State {
    s.(disk := View(s), dirty := {}, diskWrites := s.diskWrites + |s.dirty|)
  }

  /** A cache just constructed over a disk. */
  function Fresh(capacity: nat, disk: seq<Block>): State {
    State(capacity, [], map[], {}, disk, 0, 0)
  }

  // ----- every step keeps the invariant, and changes what a reader sees only where it says so -----

  lemma WithoutConcat(s: seq<nat>, t: seq<nat>, x: nat)
    ensures Without(s + t, x) == Without(s, x) + Without(t, x)
  {
    if s == [] {
      assert s + t == t;
    } else {
      assert (s + t)[1..] == s[1..] + t;
      WithoutConcat(s[1..], t, x);
    }
  }

  lemma WithoutDistinct(s: seq<nat>, x: nat)
    requires Distinct(s)
    ensures Distinct(Without(s, x))
    ensures |Without(s, x)| == if x in s then |s| - 1 else |s|
    ensures x !in s ==> Without(s, x) == s
  {
    if s != [] {
      assert s[0] !in s[1..];
      WithoutDistinct(s[1..], x);
    }
  }

  lemma WriteBackKeeps(s: State, b: nat)
    requires Ok(s) && b in s.data
    ensures Ok(WriteBack(s, b)) && View(WriteBack(s, b)) == View(s)
    ensures |WriteBack(s, b).disk| == |s.disk|
    ensures b !in WriteBack(s, b).dirty && WriteBack(s, b).disk[b] == s.data[b]
  {
  }

  lemma EvictKeeps(s: State)
    requires Ok(s) && s.order != []
    ensures Ok(Evict(s)) && View(Evict(s)) == View(s)
    ensures |Evict(s).order| == |s.order| - 1 && |Evict(s).disk| == |s.disk|
    ensures Evict(s).data.Keys == s.data.Keys - {s.order[|s.order| - 1]}
  {
    var victim := s.order[|s.order| - 1];
    WriteBackKeeps(s, victim);
    var t := Evict(s);
    assert s.order == t.order + [victim];
    forall b ensures b in t.data <==> b in t.order {
      assert b in s.order <==> b in t.order || b == victim;
    }
  }

  lemma WithRoomKeeps(s: State, b: nat)
    requires Ok(s) && b !in s.data
    ensures var t := WithRoom(s);
            && Ok(t) && View(t) == View(s) && |t.disk| == |s.disk| && |t.order| < t.capacity == s.capacity
            && b !in t.data && b !in t.dirty
  {
    if |s.order| == s.capacity {
      EvictKeeps(s);
    }
  }

  lemma InstallKeeps(s: State, b: nat)
    requires Ok(s) && |s.order| < s.capacity && b < |s.disk| && b !in s.data
    ensures var t := Install(s, b);
            Ok(t) && View(t) == View(s) && t.data[b] == View(s)[b]
  {
    assert Install(s, b).order[1..] == s.order;
  }

  lemma CachedKeeps(s: State, b: nat)
    requires Ok(s) && b < |s.disk|
    ensures var t := Cached(s, b);
            && Ok(t) && View(t) == View(s) && |t.disk| == |s.disk| && t.capacity == s.capacity
            && b in t.data && t.data[b] == View(s)[b]
  {
    if b !in s.data {
      WithRoomKeeps(s, b);
      InstallKeeps(WithRoom(s), b);
    }
  }

  lemma TouchKeeps(s: State, b: nat)
    requires Ok(s) && b in s.data
    ensures Ok(Touch(s, b)) && View(Touch(s, b)) == View(s)
  {
    WithoutDistinct(s.order, b);
  }

  /** `read_block` shows the block a reader should see and hides every eviction it causes. */
  lemma ReadBlockKeeps(s: State, b: nat)
    requires Ok(s) && b < |s.disk|
    ensures var t := ReadBlock(s, b);
            && Ok(t) && View(t) == View(s)
            && b in t.data && t.data[b] == View(s)[b]
  {
    CachedKeeps(s, b);
    TouchKeeps(Cached(s, b), b);
  }

  /** `write_block` changes the view at its own block and nowhere else. */
  lemma WriteBlockKeeps(s: State, b: nat, block: Block)
    requires Ok(s) && b < |s.disk|
    ensures var t := WriteBlock(s, b, block);
            Ok(t) && View(t) == View(s)[b := block]
  {
    CachedKeeps(s, b);
    TouchKeeps(Store(Cached(s, b), b, block), b);
  }

  lemma OrderDistinct(s: State)
    requires Ok(s)
    ensures Distinct(s.order) && forall b :: b in s.order <==> b in s.data
  {
  }

  /** After a flush the disk alone holds everything that was written. */
  lemma FlushAllKeeps(s: State)
    requires Ok(s)
    ensures Ok(FlushAll(s)) && View(FlushAll(s)) == View(s) == FlushAll(s).disk
  {
  }
}
