/**
 * Whole runs of the cache: what a reader sees, which blocks are held, how many transfers are made,
 * and how these compare with a larger cache and with every other replacement policy.
 */
module LruTheory {
  import opened Bytes
  import opened LruModel

  datatype Op = ReadOp(b: nat) | WriteOp(b: nat, block: Block) | FlushOp(b: nat) | FlushAllOp

  /** What the assertions of the cache's methods demand of a call. */
  ghost predicate Allowed(s: State, op: Op) {
    match op
    case ReadOp(b) => b < |s.disk|
    case WriteOp(b, _) => b < |s.disk|
    case FlushOp(b) => b in s.data
    case FlushAllOp => true
  }

  function Step(s: State, op: Op): State
    requires Ok(s) && Allowed(s, op)
  {
    match op
    case ReadOp(b) => ReadBlock(s, b)
    case WriteOp(b, block) => WriteBlock(s, b, block)
    case FlushOp(b) => WriteBack(s, b)
    case FlushAllOp => FlushAll(s)
  }

  lemma StepKeeps(s: State, op: Op)
    requires Ok(s) && Allowed(s, op)
    ensures var t := Step(s, op);
            && Ok(t) && t.capacity == s.capacity && |t.disk| == |s.disk|
            && View(t) == if op.WriteOp? then View(s)[op.b := op.block] else View(s)
  {
    match op
    case ReadOp(b) =>
      ReadBlockKeeps(s, b);
      CachedKeeps(s, b);
    case WriteOp(b, block) =>
      WriteBlockKeeps(s, b, block);
      CachedKeeps(s, b);
    case FlushOp(b) =>
      WriteBackKeeps(s, b);
    case FlushAllOp =>
      FlushAllKeeps(s);
  }

  /** `trace` is a run of `ops`: it starts in `s` and every step is allowed where it is taken. */
  ghost predicate IsRun(s: State, ops: seq<Op>, trace: seq<State>) {
    && |trace| == |ops| + 1 && trace[0] == s
    && forall i :: 0 <= i < |ops| ==>
         Ok(trace[i]) && Allowed(trace[i], ops[i]) && trace[i + 1] == Step(trace[i], ops[i])
  }

  /** The contents a plain disk would have after the same requests. */
  function PlainDisk(disk: seq<Block>, ops: seq<Op>): (r: seq<Block>)
    ensures |r| == |disk|
  {
    if ops == [] then disk
    else
      var before := PlainDisk(disk, ops[..|ops| - 1]);
      var op := ops[|ops| - 1];
      if op.WriteOp? && op.b < |disk| then before[op.b := op.block] else before
  }

  function Requests(ops: seq<Op>): seq<nat> {
    if ops == [] then []
    else
      var op := ops[|ops| - 1];
      Requests(ops[..|ops| - 1]) + if op.ReadOp? || op.WriteOp? then [op.b] else []
  }

  function WriteCount(ops: seq<Op>): nat {
    if ops == [] then 0
    else WriteCount(ops[..|ops| - 1]) + if ops[|ops| - 1].WriteOp? then 1 else 0
  }

  /** Refinement: in every reachable state the view is the plain disk, whatever was evicted or flushed. */
  lemma {:induction false} RunRefinesPlainDisk(s: State, ops: seq<Op>, trace: seq<State>)
    requires Ok(s) && IsRun(s, ops, trace)
    ensures Ok(trace[|ops|]) && View(trace[|ops|]) == PlainDisk(View(s), ops)
    ensures trace[|ops|].capacity == s.capacity && |trace[|ops|].disk| == |s.disk|
  {
    if ops != [] {
      RunRefinesPlainDisk(s, ops[..|ops| - 1], trace[..|ops|]);
      StepKeeps(trace[|ops| - 1], ops[|ops| - 1]);
    }
  }

  /** A read in any reachable state puts the plain disk's block in its slot, the one `memcpy` copies out. */
  lemma ReadsPlainDisk(s: State, ops: seq<Op>, trace: seq<State>, b: nat)
    requires Ok(s) && IsRun(s, ops, trace) && b < |s.disk|
    ensures Ok(trace[|ops|]) && b < |trace[|ops|].disk|
    ensures var t := ReadBlock(trace[|ops|], b);
            b in t.data && t.data[b] == PlainDisk(View(s), ops)[b]
  {
    RunRefinesPlainDisk(s, ops, trace);
    ReadBlockKeeps(trace[|ops|], b);
  }

  /** After any run, a flush leaves on the disk exactly what a plain disk would hold. */
  lemma SyncedDiskIsPlainDisk(s: State, ops: seq<Op>, trace: seq<State>)
    requires Ok(s) && IsRun(s, ops, trace)
    ensures FlushAll(trace[|ops|]).disk == PlainDisk(View(s), ops)
  {
    RunRefinesPlainDisk(s, ops, trace);
    FlushAllKeeps(trace[|ops|]);
  }

  /** Write-back amortisation: disk writes plus blocks still dirty never exceed the writes requested. */
  lemma {:induction false} WritesAmortised(s: State, ops: seq<Op>, trace: seq<State>)
    requires Ok(s) && IsRun(s, ops, trace)
    ensures var t := trace[|ops|];
            t.diskWrites + |t.dirty| <= s.diskWrites + |s.dirty| + WriteCount(ops)
  {
    if ops != [] {
      WritesAmortised(s, ops[..|ops| - 1], trace[..|ops|]);
      StepWrites(trace[|ops| - 1], ops[|ops| - 1]);
    }
  }

  lemma StepWrites(s: State, op: Op)
    requires Ok(s) && Allowed(s, op)
    ensures var t := Step(s, op);
            t.diskWrites + |t.dirty| <= s.diskWrites + |s.dirty| + if op.WriteOp? then 1 else 0
  {
    if (op.ReadOp? || op.WriteOp?) {
      assert Cached(s, op.b).diskWrites + |Cached(s, op.b).dirty| == s.diskWrites + |s.dirty|;
    }
  }

  // ----- which blocks are held -----

  function Prefix(s: seq<nat>, k: nat): seq<nat> {
    if |s| <= k then s else s[..k]
  }

  /** The blocks requested, newest first, each once. */
  function Recency(requests: seq<nat>): seq<nat> {
    if requests == [] then []
    else
      var b := requests[|requests| - 1];
      [b] + Without(Recency(requests[..|requests| - 1]), b)
  }

  lemma {:induction false} RecencyMeans(requests: seq<nat>)
    ensures Distinct(Recency(requests))
    ensures forall b :: b in Recency(requests) <==> b in requests
  {
    if requests != [] {
      var before, b := requests[..|requests| - 1], requests[|requests| - 1];
      RecencyMeans(before);
      WithoutDistinct(Recency(before), b);
      assert requests == before + [b];
    }
  }

  lemma WithoutCons(y: nat, s: seq<nat>, x: nat)
    ensures Without([y] + s, x) == if y == x then Without(s, x) else [y] + Without(s, x)
  {
    assert ([y] + s)[1..] == s;
  }

  lemma {:induction false} WithoutPrefix(s: seq<nat>, x: nat, k: nat)
    requires Distinct(s)
    ensures Prefix(Without(Prefix(s, k + 1), x), k) == Prefix(Without(s, x), k)
  {
    if s != [] {
      hide Without;
      var tail := s[1..];
      assert s == [s[0]] + tail && Prefix(s, k + 1) == [s[0]] + Prefix(tail, k);
      WithoutCons(s[0], tail, x);
      WithoutCons(s[0], Prefix(tail, k), x);
      if s[0] == x {
        WithoutDistinct(tail, x);
        WithoutDistinct(Prefix(tail, k), x);
      } else if k > 0 {
        WithoutPrefix(tail, x, k - 1);
        PrefixCons(s[0], Without(tail, x), k);
        PrefixCons(s[0], Without(Prefix(tail, k), x), k);
      }
    }
  }

  lemma PrefixCons(y: nat, s: seq<nat>, k: nat)
    requires k > 0
    ensures Prefix([y] + s, k) == [y] + Prefix(s, k - 1)
  {
  }

  /** Moving `x` to the front of the first `k` is the same as moving it to the front and keeping `k`. */
  lemma FrontOfPrefix(s: seq<nat>, x: nat, k: nat)
    requires Distinct(s) && k > 0
    ensures Prefix([x] + Without(Prefix(s, k), x), k) == Prefix([x] + Without(s, x), k)
  {
    WithoutPrefix(s, x, k - 1);
    var kept := Without(Prefix(s, k), x);
    assert Prefix([x] + kept, k) == [x] + Prefix(kept, k - 1);
    assert Prefix([x] + Without(s, x), k) == [x] + Prefix(Without(s, x), k - 1);
  }

  /** One request moves its block to the front and keeps at most `capacity`: this is what makes it LRU. */
  lemma RequestOrder(s: State, op: Op)
    requires Ok(s) && Allowed(s, op) && (op.ReadOp? || op.WriteOp?)
    ensures Step(s, op).order == Prefix([op.b] + Without(s.order, op.b), s.capacity)
    ensures Step(s, op).diskReads == s.diskReads + if op.b in s.order then 0 else 1
  {
    OrderDistinct(s);
    WithoutDistinct(s.order, op.b);
    CachedOrder(s, op.b);
    hide Ok, Cached, Distinct;
  }

  lemma RoomOrder(s: State)
    requires Ok(s)
    ensures WithRoom(s).order == Prefix(s.order, s.capacity - 1)
    ensures WithRoom(s).diskReads == s.diskReads
  {
  }

  /** Pushing a new block on the shortened list, then touching it, is moving it to the front. */
  lemma PushedToFront(order: seq<nat>, b: nat, k: nat)
    requires Distinct(order) && b !in order && k > 0
    ensures [b] + Without([b] + Prefix(order, k - 1), b) == Prefix([b] + Without(order, b), k)
  {
    hide Without, Distinct;
    var kept := Prefix(order, k - 1);
    WithoutOne(b);
    WithoutDistinct(order, b);
    PrefixFacts(order, k - 1);
    WithoutDistinct(kept, b);
    WithoutConcat([b], kept, b);
    assert Prefix([b] + order, k) == [b] + kept;
  }

  lemma WithoutOne(b: nat)
    ensures Without([b], b) == []
  {
    assert Without([b], b) == Without([], b) == [];
  }

  lemma CachedOrder(s: State, b: nat)
    requires Ok(s) && b < |s.disk|
    ensures [b] + Without(Cached(s, b).order, b) == Prefix([b] + Without(s.order, b), s.capacity)
    ensures Cached(s, b).diskReads == s.diskReads + if b in s.order then 0 else 1
  {
    OrderDistinct(s);
    if b in s.data {
      WithoutDistinct(s.order, b);
    } else {
      RoomOrder(s);
      WithRoomKeeps(s, b);
      PushedToFront(s.order, b, s.capacity);
    }
  }

  /** The requests that do not find their block among the `k` most recent ones. */
  function Misses(requests: seq<nat>, k: nat): nat {
    if requests == [] then 0
    else
      var before := requests[..|requests| - 1];
      Misses(before, k) + if requests[|requests| - 1] in Prefix(Recency(before), k) then 0 else 1
  }

  /** One more request, in terms of the whole access history. */
  lemma HistoryStep(before: seq<nat>, b: nat, capacity: nat)
    requires capacity > 0
    ensures var order := Prefix(Recency(before), capacity);
            && Prefix(Recency(before + [b]), capacity) == Prefix([b] + Without(order, b), capacity)
            && Misses(before + [b], capacity) == Misses(before, capacity) + if b in order then 0 else 1
  {
    var all := before + [b];
    assert all[..|all| - 1] == before;
    hide Without, Prefix;
    RecencyMeans(before);
    FrontOfPrefix(Recency(before), b, capacity);
  }

  lemma OtherOp(s: State, op: Op)
    requires Ok(s) && Allowed(s, op) && !op.ReadOp? && !op.WriteOp?
    ensures Step(s, op).order == s.order && Step(s, op).diskReads == s.diskReads
  {
  }

  /** One more operation on a cache that holds the most recent blocks of its history. */
  lemma OneMoreOp(s: State, op: Op, before: seq<nat>, after: seq<nat>)
    requires Ok(s) && Allowed(s, op) && s.capacity > 0
    requires s.order == Prefix(Recency(before), s.capacity) && s.diskReads == Misses(before, s.capacity)
    requires after == if op.ReadOp? || op.WriteOp? then before + [op.b] else before
    ensures Step(s, op).order == Prefix(Recency(after), s.capacity)
    ensures Step(s, op).diskReads == Misses(after, s.capacity)
  {
    hide Without, Prefix, Recency, Misses, Step, Ok, Allowed;
    if op.ReadOp? || op.WriteOp? {
      RequestOrder(s, op);
      HistoryStep(before, op.b, s.capacity);
    } else {
      OtherOp(s, op);
    }
  }

  /** Stack property: the cache holds exactly the `capacity` most recently requested distinct blocks, in order. */
  lemma {:induction false} HoldsMostRecent(disk: seq<Block>, capacity: nat, ops: seq<Op>, trace: seq<State>)
    requires capacity > 0 && IsRun(Fresh(capacity, disk), ops, trace)
    ensures Ok(trace[|ops|]) && trace[|ops|].capacity == capacity
    ensures trace[|ops|].order == Prefix(Recency(Requests(ops)), capacity)
    ensures trace[|ops|].diskReads == Misses(Requests(ops), capacity)
  {
    RunRefinesPlainDisk(Fresh(capacity, disk), ops, trace);
    if ops != [] {
      var before, op, last := ops[..|ops| - 1], ops[|ops| - 1], trace[|ops| - 1];
      HoldsMostRecent(disk, capacity, before, trace[..|ops|]);
      hide Prefix, Recency, Misses, Requests, Step, Ok;
      assert trace[|ops|] == Step(last, op) && Allowed(last, op);
      hide IsRun, Allowed;
      OneMoreOp(last, op, Requests(before), Requests(ops));
    }
  }

  lemma {:induction false} FewerMissesWhenLarger(requests: seq<nat>, k: nat, l: nat)
    requires k <= l
    ensures Misses(requests, l) <= Misses(requests, k)
  {
    if requests != [] {
      var before := requests[..|requests| - 1];
      FewerMissesWhenLarger(before, k, l);
      assert forall b :: b in Prefix(Recency(before), k) ==> b in Prefix(Recency(before), l);
    }
  }

  /** Inclusion: on the same requests a larger cache holds all a smaller one holds, and reads the disk no more. */
  lemma LargerCacheIncludesSmaller(disk: seq<Block>, k: nat, l: nat, ops: seq<Op>, ops': seq<Op>,
                                   trace: seq<State>, trace': seq<State>)
    requires 0 < k <= l && Requests(ops) == Requests(ops')
    requires IsRun(Fresh(k, disk), ops, trace) && IsRun(Fresh(l, disk), ops', trace')
    ensures trace[|ops|].order <= trace'[|ops'|].order
    ensures forall b :: b in trace[|ops|].data ==> b in trace'[|ops'|].data
    ensures trace'[|ops'|].diskReads <= trace[|ops|].diskReads
  {
    HoldsMostRecent(disk, k, ops, trace);
    HoldsMostRecent(disk, l, ops', trace');
    assert |trace| == |ops| + 1 && |trace'| == |ops'| + 1;
    OrderDistinct(trace[|ops|]);
    OrderDistinct(trace'[|ops'|]);
    FewerMissesWhenLarger(Requests(ops), k, l);
    LongerPrefix(Recency(Requests(ops)), k, l);
    hide IsRun, Recency, Misses, Prefix, Ok, Distinct;
  }

  lemma PrefixFacts(s: seq<nat>, k: nat)
    ensures |Prefix(s, k)| <= k && (Distinct(s) ==> Distinct(Prefix(s, k)))
  {
  }

  lemma LongerPrefix(s: seq<nat>, k: nat, l: nat)
    requires k <= l
    ensures Prefix(s, k) <= Prefix(s, l)
    ensures forall b :: b in Prefix(s, k) ==> b in Prefix(s, l)
  {
  }

  // ----- competitiveness -----

  /** A product, kept folded in the proofs below. */
  ghost function Times(a: int, x: int): int {
    a * x
  }

  lemma Distribute(a: int, x: int, y: int)
    ensures Times(a, x + y) == Times(a, x) + Times(a, y)
    ensures Times(a, 0) == 0 && Times(a, 1) == a
    ensures a >= 0 && x >= 0 ==> Times(a, x) >= 0
  {
  }

  /**
   * Any way of running a cache of `h` blocks on the requests: what it holds before and after each of
   * them, as long as a block is held when it is requested.  It may look ahead and fetch early.
   */
  ghost predicate IsPolicy(requests: seq<nat>, held: seq<set<nat>>, h: nat) {
    && |held| == |requests| + 1 && held[0] == {}
    && (forall i :: 0 <= i < |held| ==> |held[i]| <= h)
    && forall i :: 0 <= i < |requests| ==> requests[i] in held[i + 1]
  }

  /** The blocks the policy brings in. */
  ghost function Fetches(held: seq<set<nat>>): nat
    requires held != []
  {
    if |held| == 1 then 0
    else Fetches(held[..|held| - 1]) + |held[|held| - 1] - held[|held| - 2]|
  }

  /** Weighted blocks of the LRU order (weights `w`, `w - 1`, ...) that the policy does not hold. */
  ghost function Debt(order: seq<nat>, w: int, held: set<nat>): int {
    if order == [] then 0
    else (if order[0] in held then 0 else w) + Debt(order[1..], w - 1, held)
  }

  ghost function Absent(order: seq<nat>, held: set<nat>): nat {
    if order == [] then 0
    else (if order[0] in held then 0 else 1) + Absent(order[1..], held)
  }

  lemma {:induction false} DebtShift(order: seq<nat>, w: int, held: set<nat>)
    ensures Debt(order, w - 1, held) == Debt(order, w, held) - Absent(order, held)
  {
    if order != [] {
      DebtShift(order[1..], w - 1, held);
    }
  }

  lemma {:induction false} DebtBounds(order: seq<nat>, w: int, held: set<nat>)
    requires |order| <= w
    ensures 0 <= Debt(order, w, held)
  {
    if order != [] {
      DebtBounds(order[1..], w - 1, held);
    }
  }

  /** The last of `w` weights is worth one unit, which an eviction of the back of the list pays out. */
  lemma {:induction false} DebtWithoutLast(order: seq<nat>, w: nat, held: set<nat>)
    requires |order| == w + 1
    ensures Debt(order[..w], w, held) == Debt(order, w, held)
  {
    if w > 0 {
      DebtWithoutLast(order[1..], w - 1, held);
      assert order[..w][1..] == order[1..][..w - 1];
    } else {
      assert order[1..] == [];
    }
  }

  lemma {:induction false} DebtOfHit(order: seq<nat>, w: int, held: set<nat>, b: nat)
    requires Distinct(order) && |order| <= w && b in order && b in held
    ensures Debt(Without(order, b), w - 1, held) <= Debt(order, w, held)
  {
    var tail := order[1..];
    if order[0] == b {
      WithoutDistinct(tail, b);
    } else {
      DebtOfHit(tail, w - 1, held, b);
    }
  }

  lemma {:induction false} AbsentBound(order: seq<nat>, held: set<nat>, b: nat)
    requires Distinct(order) && b in held && b !in order
    ensures |order| + 1 <= Absent(order, held) + |held|
  {
    if order != [] {
      var tail := order[1..];
      if order[0] in held {
        AbsentBound(tail, held - {order[0]}, b);
        AbsentIgnores(tail, held, order[0]);
      } else {
        AbsentBound(tail, held, b);
      }
    }
  }

  lemma {:induction false} AbsentIgnores(order: seq<nat>, held: set<nat>, x: nat)
    requires x !in order
    ensures Absent(order, held - {x}) == Absent(order, held)
  {
    if order != [] {
      AbsentIgnores(order[1..], held, x);
    }
  }

  /** Each block the policy drops adds at most the largest weight to the debt. */
  lemma {:induction false} DebtOfDrops(order: seq<nat>, w: int, k: nat, held: set<nat>, held': set<nat>)
    requires Distinct(order) && |order| <= w <= k
    ensures Debt(order, w, held') <= Debt(order, w, held) + Times(k, |held - held'|)
  {
    Distribute(k, |held - held'|, 0);
    if order != [] {
      var x, tail := order[0], order[1..];
      if x in held && x !in held' {
        DebtOfDrops(tail, w - 1, k, held - {x}, held');
        DebtIgnores(tail, w - 1, held, x);
        assert held - {x} - held' == held - held' - {x};
        Distribute(k, |held - {x} - held'|, 1);
      } else {
        DebtOfDrops(tail, w - 1, k, held, held');
      }
    }
  }

  lemma {:induction false} DebtIgnores(order: seq<nat>, w: int, held: set<nat>, x: nat)
    requires x !in order
    ensures Debt(order, w, held - {x}) == Debt(order, w, held)
  {
    if order != [] {
      DebtIgnores(order[1..], w - 1, held, x);
    }
  }

  /** How the debt moves when the list does, the policy's blocks staying as they are. */
  lemma DebtOfRequest(order: seq<nat>, k: nat, h: nat, held: set<nat>, b: nat)
    requires Distinct(order) && |order| <= k && 1 <= h <= k && |held| <= h && b in held
    ensures var order' := Prefix([b] + Without(order, b), k);
            && |order'| <= k
            && (b in order ==> |order'| == |order| && Debt(order', k, held) <= Debt(order, k, held))
            && (b !in order && |order| < k ==> |order'| == |order| + 1 && Debt(order', k, held) <= Debt(order, k, held))
            && (b !in order && |order| == k ==>
                  |order'| == k && Debt(order', k, held) + (k - h + 1) <= Debt(order, k, held))
  {
    WithoutDistinct(order, b);
    var moved := [b] + Without(order, b);
    assert moved[1..] == Without(order, b);
    if b in order {
      DebtOfHit(order, k, held, b);
    } else {
      DebtShift(order, k, held);
      if |order| == k {
        AbsentBound(order, held, b);
        DebtWithoutLast(order, k - 1, held);
        assert moved[..k][1..] == order[..k - 1];
      }
    }
  }

  /** What the LRU cache has left to pay: its debt, the policy's blocks, and its own empty places. */
  ghost function Potential(order: seq<nat>, k: nat, h: nat, held: set<nat>): int {
    Debt(order, k, held) + Times(k, |held|) + Times(k - h + 1, k - |order|)
  }

  lemma DropsAndFetches(held: set<nat>, held': set<nat>, k: nat)
    ensures Times(k, |held'|) + Times(k, |held - held'|) == Times(k, |held|) + Times(k, |held' - held|)
  {
    assert held' == (held * held') + (held' - held) && held == (held * held') + (held - held');
    assert |held'| + |held - held'| == |held| + |held' - held|;
    Distribute(k, |held'|, |held - held'|);
    Distribute(k, |held|, |held' - held|);
  }

  /** One request: LRU's cost and the change in potential are covered by what the policy fetches. */
  lemma RequestCharged(order: seq<nat>, k: nat, h: nat, held: set<nat>, held': set<nat>, b: nat)
    requires Distinct(order) && |order| <= k && 1 <= h <= k && |held'| <= h && b in held'
    ensures var order' := Prefix([b] + Without(order, b), k);
            var miss := if b in order then 0 else 1;
            Times(k - h + 1, miss) + Potential(order', k, h, held')
            <= Potential(order, k, h, held) + Times(k, |held' - held|)
  {
    DebtOfDrops(order, k, k, held, held');
    DropsAndFetches(held, held', k);
    DebtOfRequest(order, k, h, held', b);
    Settle(k, h, |order|, |Prefix([b] + Without(order, b), k)|, if b in order then 0 else 1,
           Debt(order, k, held'), Debt(Prefix([b] + Without(order, b), k), k, held'));
  }

  /** The place or the unit of debt that pays for a miss. */
  lemma Settle(k: nat, h: nat, size: nat, size': nat, miss: nat, debt: int, debt': int)
    requires h <= k && miss <= 1 && size <= k && size' <= k
    requires (size' == size + miss && debt' <= debt) || (size' == size && debt' + (k - h + 1) <= debt)
    ensures Times(k - h + 1, miss) + debt' + Times(k - h + 1, k - size') <= debt + Times(k - h + 1, k - size)
  {
    Distribute(k - h + 1, k - size', miss);
  }

  lemma NothingCharged(held: set<nat>, k: nat, h: nat)
    requires 1 <= h <= k && held == {}
    ensures Potential(Prefix(Recency([]), k), k, h, held) == Times(k - h + 1, k)
    ensures Times(k - h + 1, 0) == Times(k, 0) == 0
  {
  }

  lemma RecencyStep(requests: seq<nat>)
    requires requests != []
    ensures var b := requests[|requests| - 1];
            Recency(requests) == [b] + Without(Recency(requests[..|requests| - 1]), b)
  {
  }

  lemma {:induction false} MissesCharged(requests: seq<nat>, held: seq<set<nat>>, k: nat, h: nat)
    requires 1 <= h <= k && IsPolicy(requests, held, h)
    ensures Times(k - h + 1, Misses(requests, k)) + Potential(Prefix(Recency(requests), k), k, h, held[|requests|])
            <= Times(k, Fetches(held)) + Times(k - h + 1, k)
  {
    var n := |requests|;
    hide Times, Potential, Without, Prefix, Distinct, Recency;
    if n == 0 {
      NothingCharged(held[0], k, h);
    } else {
      RecencyStep(requests);
      var before, held' := requests[..n - 1], held[..n];
      var order := Prefix(Recency(before), k);
      assert held[..n + 1] == held;
      MissesCharged(before, held', k, h);
      RecencyMeans(before);
      PrefixFacts(Recency(before), k);
      FrontOfPrefix(Recency(before), requests[n - 1], k);
      RequestCharged(order, k, h, held[n - 1], held[n], requests[n - 1]);
      Distribute(k - h + 1, Misses(before, k), if requests[n - 1] in order then 0 else 1);
      Distribute(k, Fetches(held'), |held[n] - held[n - 1]|);
    }
  }

  /**
   * Competitiveness (Sleator and Tarjan): on any requests, a fresh LRU cache of `k` blocks misses at most
   * k / (k - h + 1) times as often as any policy with `h` blocks fetches, plus k.
   */
  lemma Competitive(disk: seq<Block>, k: nat, h: nat, ops: seq<Op>, trace: seq<State>, held: seq<set<nat>>)
    requires 1 <= h <= k && IsRun(Fresh(k, disk), ops, trace) && IsPolicy(Requests(ops), held, h)
    ensures (k - h + 1) * trace[|ops|].diskReads <= k * Fetches(held) + (k - h + 1) * k
  {
    hide IsRun, Recency;
    HoldsMostRecent(disk, k, ops, trace);
    MissesCharged(Requests(ops), held, k, h);
    PotentialBound(Prefix(Recency(Requests(ops)), k), k, h, held[|Requests(ops)|]);
  }

  lemma PotentialBound(order: seq<nat>, k: nat, h: nat, held: set<nat>)
    requires |order| <= k && h <= k
    ensures Potential(order, k, h, held) >= 0
  {
    DebtBounds(order, k, held);
    Distribute(k, |held|, 0);
    Distribute(k - h + 1, k - |order|, 0);
  }

  /** A policy that fetches only the requested block, and only when it does not hold it. */
  ghost predicate OnDemand(requests: seq<nat>, held: seq<set<nat>>, h: nat) {
    IsPolicy(requests, held, h) && forall i :: 0 <= i < |requests| ==> held[i + 1] <= held[i] + {requests[i]}
  }

  ghost function PolicyMisses(requests: seq<nat>, held: seq<set<nat>>): nat
    requires |held| == |requests| + 1
  {
    if requests == [] then 0
    else
      var n := |requests| - 1;
      PolicyMisses(requests[..n], held[..n + 1]) + if requests[n] in held[n] then 0 else 1
  }

  lemma {:induction false} OnDemandFetches(requests: seq<nat>, held: seq<set<nat>>, h: nat)
    requires OnDemand(requests, held, h)
    ensures Fetches(held) == PolicyMisses(requests, held)
  {
    if requests != [] {
      var n := |requests| - 1;
      OnDemandFetches(requests[..n], held[..n + 1], h);
      if requests[n] in held[n] {
        assert held[n + 1] - held[n] == {};
      } else {
        assert held[n + 1] - held[n] == {requests[n]};
      }
    }
  }

  /** With equal capacities: at most `k` times the misses of any replacement policy, plus `k`. */
  lemma CompetitiveOnDemand(disk: seq<Block>, k: nat, ops: seq<Op>, trace: seq<State>, held: seq<set<nat>>)
    requires 1 <= k && IsRun(Fresh(k, disk), ops, trace) && OnDemand(Requests(ops), held, k)
    ensures trace[|ops|].diskReads <= k * PolicyMisses(Requests(ops), held) + k
  {
    Competitive(disk, k, k, ops, trace, held);
    OnDemandFetches(Requests(ops), held, k);
  }
}
