/** The simulated block disk and the LRU write-back cache in front of it. */
module Cache {
  import opened Bytes
  import L = LruModel

  /** The disk file as an array of blocks, with ghost counters of the transfers made. */
  class Disk {
    var blocks: seq<Block>
    ghost var fetched: nat
    ghost var stored: nat

    constructor (image: seq<Block>)
      ensures blocks == image && fetched == 0 && stored == 0
    {
      blocks := image;
      fetched, stored := 0, 0;
    }

    method ReadBlock(b: nat) returns (data: Block)
      requires b < |blocks|
      modifies `fetched
      ensures data == blocks[b] && fetched == old(fetched) + 1
    {
      fetched := fetched + 1;
      data := blocks[b];
    }

    method WriteBlock(b: nat, data: Block)
      requires b < |blocks|
      modifies `blocks, `stored
      ensures blocks == old(blocks)[b := data] && stored == old(stored) + 1
    {
      stored := stored + 1;
      blocks := blocks[b := data];
    }
  }

  datatype Owner = Free | Holds(block: nat)

  /** A cache slot; `Free` stands for the block index -1. */
  datatype Slot = Slot(data: Block, owner: Owner, dirty: bool)

  /** A node of the recency list.  The map stores node identities, as it stores list iterators. */
  datatype Node = Node(id: nat, pos: nat)

  function IndexOf(list: seq<Node>, id: nat): (i: nat)
    ensures i <= |list|
    ensures i < |list| ==> list[i].id == id
    ensures forall k :: 0 <= k < i ==> list[k].id != id
  {
    if list == [] || list[0].id == id then 0 else 1 + IndexOf(list[1..], id)
  }

  /** `s` with the element at `i` taken out and `x` put at the front. */
  function Moved<T>(s: seq<T>, i: nat, x: T): (r: seq<T>)
    requires i < |s|
    ensures |r| == |s| && r[0] == x
    ensures forall j :: 1 <= j <= i ==> r[j] == s[j - 1]
    ensures forall j :: i < j < |s| ==> r[j] == s[j]
  {
    [x] + (s[..i] + s[i + 1..])
  }

  lemma {:induction false} TouchMoves(s: seq<nat>, i: nat)
    requires i < |s| && L.Distinct(s)
    ensures L.Without(s, s[i]) == s[..i] + s[i + 1..]
  {
    if i == 0 {
      L.WithoutDistinct(s[1..], s[0]);
    } else {
      var tail := s[1..];
      assert tail[i - 1] == s[i] != s[0];
      TouchMoves(tail, i - 1);
      assert L.Without(s, s[i]) == [s[0]] + L.Without(tail, s[i]);
      hide L.Without, L.Distinct;
      assert s[..i] == [s[0]] + tail[..i - 1] && tail[i..] == s[i + 1..];
    }
  }

  /** Each occupied slot holds one cached block, with its bytes and its dirty bit; no block has two slots. */
  ghost predicate SlotsFollow(slots: seq<Slot>, m: L.State) {
    && (forall p :: 0 <= p < |slots| && slots[p].owner.Holds? ==>
          && slots[p].owner.block in m.data
          && slots[p].data == m.data[slots[p].owner.block]
          && slots[p].dirty == (slots[p].owner.block in m.dirty))
    && (forall p, q :: 0 <= p < q < |slots| && slots[p].owner.Holds? ==> slots[p].owner != slots[q].owner)
  }

  /**
   * The list spells the recency order, and the map is the exact inverse of the list.  The ghost map
   * `issued` remembers for which block each node was made, so that no two nodes share an identity.
   */
  ghost predicate ListFollows(slots: seq<Slot>, list: seq<Node>, where: map<nat, nat>,
                              issued: map<nat, nat>, nextId: nat, order: seq<nat>) {
    && |list| == |order|
    && (forall i {:trigger list[i]} {:trigger order[i]} :: 0 <= i < |list| ==>
          && list[i].pos < |slots|
          && slots[list[i].pos].owner == Holds(order[i])
          && order[i] in where && where[order[i]] == list[i].id
          && list[i].id in issued && issued[list[i].id] == order[i])
    && (forall id :: id in issued ==> id < nextId)
  }

  /** The free queue lists exactly the free slots, once each, and none of them is dirty. */
  ghost predicate QueueFollows(slots: seq<Slot>, free: seq<nat>) {
    && (forall i :: 0 <= i < |free| ==> free[i] < |slots| && slots[free[i]].owner == Free)
    && (forall p: nat :: p < |slots| && slots[p].owner == Free ==> p in free && !slots[p].dirty)
    && L.Distinct(free)
  }

  lemma Basics(slots: seq<Slot>, list: seq<Node>, where: map<nat, nat>, issued: map<nat, nat>, nextId: nat, m: L.State)
    requires L.Ok(m) && ListFollows(slots, list, where, issued, nextId, m.order)
    ensures |list| == |m.order| <= m.capacity && m.capacity > 0
    ensures m.dirty <= m.data.Keys
    ensures forall i :: 0 <= i < |list| ==>
              && m.order[i] in m.data && m.order[i] < |m.disk|
              && list[i].pos < |slots| && slots[list[i].pos].owner == Holds(m.order[i])
  {
    assert forall i :: 0 <= i < |m.order| ==> m.order[i] in m.order;
  }

  lemma Occupied(slots: seq<Slot>, m: L.State, pos: nat)
    requires L.Ok(m) && SlotsFollow(slots, m) && pos < |slots| && slots[pos].owner.Holds?
    ensures slots[pos].owner.block in m.data && slots[pos].owner.block < |m.disk|
    ensures slots[pos].data == m.data[slots[pos].owner.block]
    ensures slots[pos].dirty == (slots[pos].owner.block in m.dirty)
  {
  }

  // ----- slots -----

  lemma SlotReleased(slots: seq<Slot>, m: L.State, pos: nat, m': L.State)
    requires SlotsFollow(slots, m) && pos < |slots| && slots[pos].owner.Holds?
    requires m'.data == m.data - {slots[pos].owner.block} && m'.dirty == m.dirty
    ensures SlotsFollow(slots[pos := slots[pos].(owner := Free)], m')
  {
  }

  lemma SameContent(slots: seq<Slot>, m: L.State, m': L.State)
    requires SlotsFollow(slots, m) && m'.data == m.data && m'.dirty == m.dirty
    ensures SlotsFollow(slots, m')
  {
  }

  // ----- list and map -----

  lemma OwnersKept(slots: seq<Slot>, slots': seq<Slot>, list: seq<Node>, where: map<nat, nat>,
                   issued: map<nat, nat>, nextId: nat, order: seq<nat>, free: seq<nat>)
    requires ListFollows(slots, list, where, issued, nextId, order) && QueueFollows(slots, free)
    requires |slots'| == |slots|
    requires forall p :: 0 <= p < |slots| ==>
               slots'[p].owner == slots[p].owner && (slots[p].owner == Free ==> slots'[p].dirty == slots[p].dirty)
    ensures ListFollows(slots', list, where, issued, nextId, order) && QueueFollows(slots', free)
  {
  }

  lemma LastDropped(slots: seq<Slot>, list: seq<Node>, where: map<nat, nat>, issued: map<nat, nat>, nextId: nat,
                    order: seq<nat>, data: Slot)
    requires ListFollows(slots, list, where, issued, nextId, order) && L.Distinct(order) && list != []
    requires data.owner == Free
    ensures var last := |list| - 1;
            ListFollows(slots[list[last].pos := data], list[..last], where - {order[last]},
                        issued, nextId, order[..last])
  {
    var last := |list| - 1;
    forall i | 0 <= i < last
      ensures list[i].pos != list[last].pos && order[i] != order[last]
    {
    }
  }

  lemma NodeInstalled(slots: seq<Slot>, list: seq<Node>, where: map<nat, nat>, issued: map<nat, nat>, nextId: nat,
                      order: seq<nat>, pos: nat, b: nat, data: Block)
    requires ListFollows(slots, list, where, issued, nextId, order) && b !in order
    requires pos < |slots| && slots[pos].owner == Free
    ensures ListFollows(slots[pos := Slot(data, Holds(b), false)], [Node(nextId, pos)] + list,
                        where[b := nextId], issued[nextId := b], nextId + 1, [b] + order)
  {
    var list', order' := [Node(nextId, pos)] + list, [b] + order;
    forall i | 1 <= i < |list'|
      ensures list'[i] == list[i - 1] && order'[i] == order[i - 1] && list'[i].pos != pos && order'[i] != b
    {
    }
  }

  lemma NodeMoved(slots: seq<Slot>, list: seq<Node>, where: map<nat, nat>, issued: map<nat, nat>, nextId: nat,
                  order: seq<nat>, i: nat)
    requires L.Distinct(order) && ListFollows(slots, list, where, issued, nextId, order)
    requires i < |list|
    ensures ListFollows(slots, Moved(list, i, Node(nextId, list[i].pos)), where[order[i] := nextId],
                        issued[nextId := order[i]], nextId + 1, Moved(order, i, order[i]))
  {
    var list', order' := Moved(list, i, Node(nextId, list[i].pos)), Moved(order, i, order[i]);
    hide Moved;
    forall j | 1 <= j < |list'|
      ensures var k := if j <= i then j - 1 else j;
              list'[j] == list[k] && order'[j] == order[k] && order[k] != order[i]
    {
    }
  }

  // ----- free queue -----

  lemma PositionFreed(slots: seq<Slot>, pos: nat)
    requires QueueFollows(slots, []) && pos < |slots| && !slots[pos].dirty
    ensures QueueFollows(slots[pos := slots[pos].(owner := Free)], [pos])
  {
  }

  lemma PositionTaken(slots: seq<Slot>, free: seq<nat>, b: nat, data: Block)
    requires QueueFollows(slots, free) && free != []
    ensures free[0] < |slots| && slots[free[0]].owner == Free
    ensures QueueFollows(slots[free[0] := Slot(data, Holds(b), false)], free[1..])
  {
    forall p: nat | p in free && p != free[0] ensures p in free[1..] {
    }
  }

  /** The fields of the cache, as one value. */
  datatype Fields = Fields(slots: seq<Slot>, free: seq<nat>, list: seq<Node>, where: map<nat, nat>,
                           issued: map<nat, nat>, nextId: nat)

  ghost predicate Follows(f: Fields, m: L.State) {
    && L.Ok(m)
    && |f.slots| == m.capacity == |f.free| + |f.list|
    && f.where.Keys == m.data.Keys
    && SlotsFollow(f.slots, m)
    && ListFollows(f.slots, f.list, f.where, f.issued, f.nextId, m.order)
    && QueueFollows(f.slots, f.free)
  }

  lemma Cleaned(f: Fields, m: L.State, pos: nat)
    requires Follows(f, m) && pos < |f.slots| && f.slots[pos].owner.Holds?
    ensures f.slots[pos].owner.block in m.data && f.slots[pos].owner.block < |m.disk|
    ensures f.slots[pos].data == m.data[f.slots[pos].owner.block]
    ensures f.slots[pos].dirty == (f.slots[pos].owner.block in m.dirty)
    ensures Follows(f.(slots := f.slots[pos := f.slots[pos].(dirty := false)]),
                    L.WriteBack(m, f.slots[pos].owner.block))
  {
    var slots', b := f.slots[pos := f.slots[pos].(dirty := false)], f.slots[pos].owner.block;
    Occupied(f.slots, m, pos);
    L.WriteBackKeeps(m, b);
    OwnersKept(f.slots, slots', f.list, f.where, f.issued, f.nextId, m.order, f.free);
  }

  lemma Oldest(f: Fields, m: L.State)
    requires Follows(f, m) && f.free == []
    ensures f.list != [] && |f.list| == |m.order| == m.capacity
    ensures var pos := f.list[|f.list| - 1].pos;
            pos < |f.slots| && f.slots[pos].owner == Holds(m.order[|m.order| - 1])
  {
    Basics(f.slots, f.list, f.where, f.issued, f.nextId, m);
  }

  lemma Released(f: Fields, m: L.State)
    requires Follows(f, m) && f.free == [] && f.list != [] && |f.list| == |m.order|
    requires m.order[|m.order| - 1] !in m.dirty
    requires f.list[|f.list| - 1].pos < |f.slots|
    ensures m.order[|m.order| - 1] in m.data && m.order[|m.order| - 1] < |m.disk|
    ensures var last := |f.list| - 1;
            var pos := f.list[last].pos;
            var slots' := f.slots[pos := f.slots[pos].(owner := Free)];
            Follows(Fields(slots', [pos], f.list[..last], f.where - {m.order[last]}, f.issued, f.nextId), L.Evict(m))
  {
    var last := |f.list| - 1;
    var pos := f.list[last].pos;
    Basics(f.slots, f.list, f.where, f.issued, f.nextId, m);
    L.EvictKeeps(m);
    L.OrderDistinct(m);
    Occupied(f.slots, m, pos);
    SlotReleased(f.slots, m, pos, L.Evict(m));
    LastDropped(f.slots, f.list, f.where, f.issued, f.nextId, m.order, f.slots[pos].(owner := Free));
    PositionFreed(f.slots, pos);
  }

  lemma Installed(f: Fields, m: L.State, b: nat)
    requires Follows(f, m) && f.free != [] && b !in m.data && b < |m.disk|
    ensures f.free[0] < |f.slots|
    ensures var slots' := f.slots[f.free[0] := Slot(m.disk[b], Holds(b), false)];
            Follows(Fields(slots', f.free[1..], [Node(f.nextId, f.free[0])] + f.list, f.where[b := f.nextId],
                           f.issued[f.nextId := b], f.nextId + 1), L.Install(m, b))
  {
    Basics(f.slots, f.list, f.where, f.issued, f.nextId, m);
    L.InstallKeeps(m, b);
    L.OrderDistinct(m);
    PositionTaken(f.slots, f.free, b, m.disk[b]);
    NodeInstalled(f.slots, f.list, f.where, f.issued, f.nextId, m.order, f.free[0], b, m.disk[b]);
  }

  lemma Stored(f: Fields, m: L.State, pos: nat, block: Block)
    requires Follows(f, m) && pos < |f.slots| && f.slots[pos].owner.Holds?
    ensures Follows(f.(slots := f.slots[pos := f.slots[pos].(data := block, dirty := true)]),
                    L.Store(m, f.slots[pos].owner.block, block))
  {
    var b := f.slots[pos].owner.block;
    Occupied(f.slots, m, pos);
    OwnersKept(f.slots, f.slots[pos := f.slots[pos].(data := block, dirty := true)], f.list, f.where, f.issued,
               f.nextId, m.order, f.free);
  }

  lemma OrderTouched(m: L.State, i: nat)
    requires L.Ok(m) && i < |m.order|
    ensures L.Distinct(m.order) && m.order[i] in m.data
    ensures L.Ok(L.Touch(m, m.order[i])) && L.Touch(m, m.order[i]).order == Moved(m.order, i, m.order[i])
  {
    L.OrderDistinct(m);
    TouchMoves(m.order, i);
    L.TouchKeeps(m, m.order[i]);
  }

  lemma ListTouched(f: Fields, m: L.State, i: nat)
    requires Follows(f, m) && i < |f.list|
    ensures |m.order| == |f.list| && f.list[i].pos < |f.slots| && f.slots[f.list[i].pos].owner == Holds(m.order[i])
    ensures L.Ok(L.Touch(m, m.order[i])) && m.order[i] in m.data
    ensures ListFollows(f.slots, Moved(f.list, i, Node(f.nextId, f.list[i].pos)), f.where[m.order[i] := f.nextId],
                        f.issued[f.nextId := m.order[i]], f.nextId + 1, L.Touch(m, m.order[i]).order)
  {
    hide Moved, L.Without, L.View, L.Ok, SlotsFollow, QueueFollows, ListFollows, L.Distinct;
    Basics(f.slots, f.list, f.where, f.issued, f.nextId, m);
    OrderTouched(m, i);
    NodeMoved(f.slots, f.list, f.where, f.issued, f.nextId, m.order, i);
  }

  lemma Touched(f: Fields, m: L.State, i: nat)
    requires Follows(f, m) && i < |f.list|
    ensures |m.order| == |f.list| && f.list[i].pos < |f.slots| && f.slots[f.list[i].pos].owner == Holds(m.order[i])
    ensures Follows(f.(list := Moved(f.list, i, Node(f.nextId, f.list[i].pos)),
        where := f.where[m.order[i] := f.nextId],
                       issued := f.issued[f.nextId := m.order[i]], nextId := f.nextId + 1),
                    L.Touch(m, m.order[i]))
  {
    hide Moved, L.Without, L.View, L.Ok, SlotsFollow, QueueFollows, ListFollows, L.Distinct;
    ListTouched(f, m, i);
    SameContent(f.slots, m, L.Touch(m, m.order[i]));
    assert (f.where[m.order[i] := f.nextId]).Keys == m.data.Keys;
  }

  lemma FetchSteps(f: Fields, m: L.State, b: nat)
    requires Follows(f, m) && b < |m.disk| && b !in f.where
    ensures f.where.Keys == m.data.Keys && b !in m.data
    ensures L.Ok(m) && L.Fetch(m, b) == L.Install(L.WithRoom(m), b)
    ensures L.WithRoom(m) == if f.free == [] then L.Evict(m) else m
    ensures b < |L.WithRoom(m).disk| && b !in L.WithRoom(m).data
  {
    L.WithRoomKeeps(m, b);
  }

  lemma WriteBackCounts(f: Fields, m: L.State, pos: nat)
    requires Follows(f, m) && pos < |f.slots| && f.slots[pos].owner.Holds?
    ensures f.slots[pos].owner.block in m.data && f.slots[pos].owner.block < |m.disk|
    ensures var t := L.WriteBack(m, f.slots[pos].owner.block);
            && t.order == m.order && t.data == m.data && t.diskReads == m.diskReads && L.View(t) == L.View(m)
            && t.diskWrites + |t.dirty| == m.diskWrites + |m.dirty|
  {
    L.WriteBackKeeps(m, f.slots[pos].owner.block);
  }

  lemma AllClean(f: Fields, m: L.State)
    requires Follows(f, m) && forall p :: 0 <= p < |f.slots| ==> !f.slots[p].dirty
    ensures m.dirty == {} && L.View(m) == m.disk
  {
  }

  class Cache {
    const disk: Disk
    const capacity: nat
    var slots: seq<Slot>
    var freePositions: seq<nat>
    var lruList: seq<Node>
    var lruMap: map<nat, nat>
    var nextId: nat

    ghost var model: L.State
    ghost var issued: map<nat, nat>
    ghost const fetched0: nat
    ghost const stored0: nat

    ghost function All(): Fields
      reads this
    {
      Fields(slots, freePositions, lruList, lruMap, issued, nextId)
    }

    ghost predicate Valid()
      reads this, disk
    {
      && Follows(All(), model) && model.capacity == capacity && model.disk == disk.blocks
      && disk.fetched == fetched0 + model.diskReads && disk.stored == stored0 + model.diskWrites
    }

    constructor (disk: Disk, capacity: nat)
      requires capacity > 0
      ensures Valid() && this.disk == disk && this.capacity == capacity
      ensures model == L.Fresh(capacity, disk.blocks)
    {
      this.disk, this.capacity := disk, capacity;
      slots := seq(capacity, _ => Slot(ZeroBlock(), Free, false));
      freePositions, lruList, lruMap, nextId := [], [], map[], 0;
      model, issued := L.Fresh(capacity, disk.blocks), map[];
      fetched0, stored0 := disk.fetched, disk.stored;
      new;
      for i := 0 to capacity
        invariant freePositions == seq(i, k => k)
        invariant lruList == [] && lruMap == map[] && issued == map[] && model == L.Fresh(capacity, disk.blocks)
        invariant slots == seq(capacity, _ => Slot(ZeroBlock(), Free, false))
      {
        freePositions := freePositions + [i];
      }
      forall p: nat | p < |slots| ensures p in freePositions {
        assert freePositions[p] == p;
      }
    }

    /** Follows the map's iterator for block `b` to its list node. */
    function NodeOf(b: nat): (i: nat)
      requires Valid() && b in lruMap
      reads this, disk
      ensures i < |lruList| && |lruList| == |model.order| && model.order[i] == b
      ensures lruList[i].pos < |slots| && slots[lruList[i].pos].owner == Holds(b)
      ensures b in model.data && slots[lruList[i].pos].data == model.data[b]
    {
      IndexOf(lruList, lruMap[b])
    }

    method WriteItemBack(pos: nat)
      requires Valid() && pos < |slots|
      modifies `slots, `model, disk
      ensures Valid()
      ensures slots == old(slots)[pos := old(slots)[pos].(dirty := false)]
      ensures model == match old(slots)[pos].owner
                       case Free => old(model)
                       case Holds(b) => L.WriteBack(old(model), b)
    {
      if slots[pos].owner.Holds? {
        Cleaned(All(), model, pos);
      }
      if slots[pos].dirty && slots[pos].owner.Holds? {
        var b := slots[pos].owner.block;
        hide Follows;
        disk.WriteBlock(b, slots[pos].data);
        model := L.WriteBack(model, b);
        slots := slots[pos := slots[pos].(dirty := false)];
      }
    }

    method FreeLru()
      requires Valid() && freePositions == []
      modifies `slots, `model, `lruList, `lruMap, `freePositions, disk
      ensures Valid() && model == L.Evict(old(model))
      ensures |freePositions| == 1
    {
      hide Follows;
      Oldest(All(), model);
      var last := |lruList| - 1;
      var pos := lruList[last].pos;
      Cleaned(All(), model, pos);
      WriteItemBack(pos);
      Released(All(), model);
      lruMap := lruMap - {slots[pos].owner.block};
      lruList := lruList[..last];
      slots := slots[pos := slots[pos].(owner := Free)];
      freePositions := freePositions + [pos];
      assert freePositions == [pos];
      model := L.Evict(model);
    }

    method GetBlockFromDisk(b: nat)
      requires Valid() && b < |disk.blocks| && b !in lruMap
      modifies `slots, `model, `lruList, `lruMap, `freePositions, `nextId, `issued, disk
      ensures Valid() && model == L.Fetch(old(model), b)
    {
      FetchSteps(All(), model, b);
      hide Follows, L.Evict, L.Fetch, L.WithRoom, L.Ok, L.Install, L.View;
      if freePositions == [] {
        FreeLru();
      }
      Place(b);
    }

    /** Reads block `b` into the next free slot. */
    method Place(b: nat)
      requires Valid() && b < |disk.blocks| && b !in model.data && freePositions != []
      modifies `slots, `model, `lruList, `lruMap, `freePositions, `nextId, `issued, disk
      ensures Valid() && model == L.Install(old(model), b)
    {
      hide Follows;
      var pos := freePositions[0];
      var data := disk.ReadBlock(b);
      Installed(All(), model, b);
      freePositions := freePositions[1..];
      slots := slots[pos := Slot(data, Holds(b), false)];
      lruList := [Node(nextId, pos)] + lruList;
      lruMap := lruMap[b := nextId];
      issued := issued[nextId := b];
      nextId := nextId + 1;
      model := L.Install(model, b);
    }

    /** Moves the node of block `b` to the front: erase it, push a new node, and re-point the map. */
    method Update(b: nat)
      requires Valid() && b in lruMap
      modifies `model, `lruList, `lruMap, `nextId, `issued
      ensures Valid() && model == L.Touch(old(model), b)
    {
      hide Follows, Moved;
      var i := NodeOf(b);
      var pos := lruList[i].pos;
      Touched(All(), model, i);
      lruList := Moved(lruList, i, Node(nextId, pos));
      lruMap := lruMap[slots[pos].owner.block := nextId];
      issued := issued[nextId := b];
      nextId := nextId + 1;
      model := L.Touch(model, b);
    }

    method ReadBlock(b: nat, buf: array<byte>)
      requires Valid() && b < |disk.blocks| && buf.Length == BLOCK_SIZE
      modifies this, disk, buf
      ensures Valid() && model == L.ReadBlock(old(model), b)
      ensures buf[..] == L.View(old(model))[b]
    {
      hide L.Ok, L.Fetch, L.View;
      L.CachedKeeps(model, b);
      assert lruMap.Keys == model.data.Keys;
      hide Follows;
      if b !in lruMap {
        GetBlockFromDisk(b);
      }
      var pos := lruList[NodeOf(b)].pos;
      Copy(buf, 0, slots[pos].data);
      assert buf[..] == slots[pos].data;
      Update(b);
    }

    method WriteBlock(b: nat, buf: array<byte>)
      requires Valid() && b < |disk.blocks| && buf.Length == BLOCK_SIZE
      modifies this, disk
      ensures Valid() && model == L.WriteBlock(old(model), b, buf[..])
    {
      hide L.Ok, L.Fetch, L.View, L.Touch;
      L.CachedKeeps(model, b);
      assert lruMap.Keys == model.data.Keys;
      hide Follows;
      if b !in lruMap {
        GetBlockFromDisk(b);
      }
      Overwrite(b, buf[..]);
      Update(b);
    }

    /** Copies new bytes into the slot of a cached block and marks it dirty. */
    method Overwrite(b: nat, data: Block)
      requires Valid() && b in lruMap
      modifies `slots, `model
      ensures Valid() && model == L.Store(old(model), b, data)
    {
      hide Follows, L.Ok;
      var pos := lruList[NodeOf(b)].pos;
      Stored(All(), model, pos, data);
      slots := slots[pos := slots[pos].(data := data, dirty := true)];
      model := L.Store(model, b, data);
    }

    method FlushBlock(b: nat)
      requires Valid() && b in lruMap
      modifies `slots, `model, disk
      ensures Valid() && model == L.WriteBack(old(model), b)
    {
      var pos := lruList[NodeOf(b)].pos;
      WriteItemBack(pos);
    }

    method FlushAll()
      requires Valid()
      modifies `slots, `model, disk
      ensures Valid() && model == L.FlushAll(old(model))
    {
      assert |slots| == capacity;
      hide Follows, L.Ok, L.View, L.WriteBack;
      for pos := 0 to capacity
        invariant Valid() && |slots| == capacity
        invariant forall p :: 0 <= p < pos ==> !slots[p].dirty
        invariant model.order == old(model).order && model.data == old(model).data
        invariant L.View(model) == L.View(old(model)) && model.diskReads == old(model).diskReads
        invariant model.diskWrites + |model.dirty| == old(model).diskWrites + |old(model).dirty|
      {
        if slots[pos].owner.Holds? {
          WriteBackCounts(All(), model, pos);
        }
        WriteItemBack(pos);
      }
      AllClean(All(), model);
    }
  }
}
