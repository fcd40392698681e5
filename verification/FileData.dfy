/**
 * Byte ranges over scattered blocks: the bytes of a block list as one sequence, and what the loops of `read` and
 * `write`, which cut a range at the block boundaries, do to it.
 */
module FileData {
  import opened Bytes
  import L = LruModel

  ghost predicate Held(data: map<nat, Block>, blocks: seq<nat>) {
    forall k :: 0 <= k < |blocks| ==> blocks[k] in data
  }

  /** The listed blocks, concatenated. */
  function Flat(data: map<nat, Block>, blocks: seq<nat>): (bytes: seq<byte>)
    requires Held(data, blocks)
    ensures |bytes| == BLOCK_SIZE * |blocks|
  {
    seq(BLOCK_SIZE * |blocks|,
        j requires 0 <= j < BLOCK_SIZE * |blocks| => data[blocks[j / BLOCK_SIZE]][j % BLOCK_SIZE])
  }

  // ----- cutting a range at the block boundaries -----

  /** The bytes from `offset` to the end of its block. */
  function Room(offset: nat): (r: nat)
    ensures 1 <= r <= BLOCK_SIZE
  {
    BLOCK_SIZE - offset % BLOCK_SIZE
  }

  /** The list has the block in which the range ends, although a range may end on its first byte. */
  predicate Within(blocks: seq<nat>, offset: nat, n: nat) {
    (offset + n) / BLOCK_SIZE < |blocks|
  }

  /** Where a range that starts at `offset` continues in the `i`-th block. */
  function EntersAt(offset: nat, i: nat): (pos: nat)
    requires offset / BLOCK_SIZE <= i
    ensures offset <= pos && pos / BLOCK_SIZE == i
    ensures pos % BLOCK_SIZE == if i == offset / BLOCK_SIZE then offset % BLOCK_SIZE else 0
  {
    if i == offset / BLOCK_SIZE then offset else i * BLOCK_SIZE
  }

  /** Where the range leaves it again. */
  function LeavesAt(offset: nat, n: nat, i: nat): (end: nat)
    requires offset / BLOCK_SIZE <= i <= (offset + n) / BLOCK_SIZE
    ensures EntersAt(offset, i) <= end <= offset + n
    ensures EntersAt(offset, i) % BLOCK_SIZE + (end - EntersAt(offset, i)) <= BLOCK_SIZE
    ensures if i == (offset + n) / BLOCK_SIZE then
              && end - EntersAt(offset, i) < Room(EntersAt(offset, i))
              && EntersAt(offset, i) % BLOCK_SIZE + (end - EntersAt(offset, i)) == (offset + n) % BLOCK_SIZE
            else end == EntersAt(offset, i + 1) == EntersAt(offset, i) + Room(EntersAt(offset, i))
  {
    if i == (offset + n) / BLOCK_SIZE then offset + n else (i + 1) * BLOCK_SIZE
  }

  lemma WithinRest(blocks: seq<nat>, offset: nat, n: nat)
    requires Within(blocks, offset, n)
    ensures offset / BLOCK_SIZE < |blocks| && offset + n <= BLOCK_SIZE * |blocks|
    ensures Room(offset) <= n ==> Within(blocks, offset + Room(offset), n - Room(offset))
  {
  }

  lemma Cut(s: seq<byte>, lo: nat, mid: nat, hi: nat)
    requires lo <= mid <= hi <= |s|
    ensures s[lo..hi] == s[lo..mid] + s[mid..hi]
  {
  }

  // ----- reading -----

  /** A piece of one block. */
  function Piece(data: map<nat, Block>, blocks: seq<nat>, offset: nat, n: nat): seq<byte>
    requires Held(data, blocks) && offset / BLOCK_SIZE < |blocks| && n <= Room(offset)
  {
    data[blocks[offset / BLOCK_SIZE]][offset % BLOCK_SIZE..offset % BLOCK_SIZE + n]
  }

  /** The bytes that the read loop copies for `n` bytes from `offset` on, block by block. */
  function Slice(data: map<nat, Block>, blocks: seq<nat>, offset: nat, n: nat): seq<byte>
    requires Held(data, blocks) && Within(blocks, offset, n)
    decreases n, blocks
  {
    WithinRest(blocks, offset, n);
    if n < Room(offset) then Piece(data, blocks, offset, n)
    else Piece(data, blocks, offset, Room(offset)) + Slice(data, blocks, offset + Room(offset), n - Room(offset))
  }

  lemma PieceOfFlat(data: map<nat, Block>, blocks: seq<nat>, offset: nat, n: nat)
    requires Held(data, blocks) && n <= Room(offset) && offset / BLOCK_SIZE < |blocks|
    ensures offset + n <= BLOCK_SIZE * |blocks|
    ensures Flat(data, blocks)[offset..offset + n] == Piece(data, blocks, offset, n)
  {
    var i, o := offset / BLOCK_SIZE, offset % BLOCK_SIZE;
    var flat := Flat(data, blocks);
    forall j | offset <= j < offset + n ensures flat[j] == data[blocks[i]][j - offset + o] {
      assert j / BLOCK_SIZE == i && j % BLOCK_SIZE == j - offset + o;
    }
    assert flat[offset..offset + n] == data[blocks[i]][o..o + n];
  }

  lemma SliceStep(data: map<nat, Block>, blocks: seq<nat>, offset: nat, n: nat)
    requires Held(data, blocks) && Within(blocks, offset, n) && Room(offset) <= n
    ensures offset / BLOCK_SIZE < |blocks| && Within(blocks, offset + Room(offset), n - Room(offset))
    ensures Slice(data, blocks, offset, n)
            == Piece(data, blocks, offset, Room(offset)) + Slice(data, blocks, offset + Room(offset), n - Room(offset))
  {
    WithinRest(blocks, offset, n);
    hide Room, Within, Piece;
  }

  lemma SliceEnds(data: map<nat, Block>, blocks: seq<nat>, offset: nat, n: nat)
    requires Held(data, blocks) && Within(blocks, offset, n) && n < Room(offset)
    ensures offset / BLOCK_SIZE < |blocks| && Slice(data, blocks, offset, n) == Piece(data, blocks, offset, n)
  {
    WithinRest(blocks, offset, n);
    hide Room, Within, Piece;
  }

  /** The read loop is about to copy its piece of the `i`-th block. */
  ghost predicate ReadUpTo(data: map<nat, Block>, blocks: seq<nat>, offset: nat, n: nat, i: nat, got: seq<byte>)
    requires Held(data, blocks) && Within(blocks, offset, n) && offset / BLOCK_SIZE <= i
  {
    var pos := EntersAt(offset, i);
    if i <= (offset + n) / BLOCK_SIZE then
      && |got| == pos - offset && Within(blocks, pos, n - |got|)
      && got + Slice(data, blocks, pos, n - |got|) == Slice(data, blocks, offset, n)
    else got == Slice(data, blocks, offset, n)
  }

  lemma ReadNothing(data: map<nat, Block>, blocks: seq<nat>, offset: nat, n: nat)
    requires Held(data, blocks) && Within(blocks, offset, n)
    ensures ReadUpTo(data, blocks, offset, n, offset / BLOCK_SIZE, [])
  {
    hide Slice;
  }

  lemma ReadAll(data: map<nat, Block>, blocks: seq<nat>, offset: nat, n: nat, got: seq<byte>)
    requires Held(data, blocks) && Within(blocks, offset, n)
    requires ReadUpTo(data, blocks, offset, n, (offset + n) / BLOCK_SIZE + 1, got)
    ensures got == Slice(data, blocks, offset, n)
  {
    hide Slice;
  }

  /** One turn of the read loop: the rest of the first block, a whole block, or the start of the last one. */
  lemma ReadMore(data: map<nat, Block>, blocks: seq<nat>, offset: nat, n: nat, i: nat, got: seq<byte>)
    requires Held(data, blocks) && Within(blocks, offset, n)
    requires offset / BLOCK_SIZE <= i <= (offset + n) / BLOCK_SIZE && ReadUpTo(data, blocks, offset, n, i, got)
    ensures offset / BLOCK_SIZE < (offset + n) / BLOCK_SIZE ==>
              var block := data[blocks[i]];
              var piece := if i == (offset + n) / BLOCK_SIZE then block[..(offset + n) % BLOCK_SIZE]
                           else if i == offset / BLOCK_SIZE then block[offset % BLOCK_SIZE..] else block;
              ReadUpTo(data, blocks, offset, n, i + 1, got + piece)
  {
    hide Slice;
    var pos, end := EntersAt(offset, i), LeavesAt(offset, n, i);
    if i == (offset + n) / BLOCK_SIZE {
      SliceEnds(data, blocks, pos, n - |got|);
    } else {
      SliceStep(data, blocks, pos, n - |got|);
    }
  }

  /** The pieces that the loop reads make up the slice of the flat file. */
  lemma {:induction false} SliceIsFlat(data: map<nat, Block>, blocks: seq<nat>, offset: nat, n: nat)
    requires Held(data, blocks) && Within(blocks, offset, n)
    ensures offset + n <= BLOCK_SIZE * |blocks|
    ensures Slice(data, blocks, offset, n) == Flat(data, blocks)[offset..offset + n]
    decreases n
  {
    hide Flat, Room, Within, Held, Piece;
    WithinRest(blocks, offset, n);
    if n < Room(offset) {
      PieceOfFlat(data, blocks, offset, n);
    } else {
      var next := offset + Room(offset);
      SliceIsFlat(data, blocks, next, n - Room(offset));
      PieceOfFlat(data, blocks, offset, Room(offset));
      Cut(Flat(data, blocks), offset, next, offset + n);
    }
  }

  // ----- writing -----

  /** A piece is stored in one block. */
  function Stored(data: map<nat, Block>, blocks: seq<nat>, offset: nat, piece: seq<byte>): (data': map<nat, Block>)
    requires Held(data, blocks) && offset / BLOCK_SIZE < |blocks| && |piece| <= Room(offset)
    ensures data'.Keys == data.Keys && Held(data', blocks)
    ensures forall b :: b in data && b !in blocks ==> data'[b] == data[b]
  {
    var b := blocks[offset / BLOCK_SIZE];
    data[b := Splice(data[b], offset % BLOCK_SIZE, piece)]
  }

  /** The data after the write loop has stored the bytes from `offset` on, block by block. */
  function Patch(data: map<nat, Block>, blocks: seq<nat>, offset: nat, bytes: seq<byte>): (data': map<nat, Block>)
    requires Held(data, blocks) && Within(blocks, offset, |bytes|)
    ensures data'.Keys == data.Keys && Held(data', blocks)
    ensures forall b :: b in data && b !in blocks ==> data'[b] == data[b]
    decreases |bytes|
  {
    WithinRest(blocks, offset, |bytes|);
    if |bytes| < Room(offset) then Stored(data, blocks, offset, bytes)
    else Patch(Stored(data, blocks, offset, bytes[..Room(offset)]), blocks, offset + Room(offset),
        bytes[Room(offset)..])
  }

  lemma StoredIsSplice(data: map<nat, Block>, blocks: seq<nat>, offset: nat, piece: seq<byte>)
    requires Held(data, blocks) && L.Distinct(blocks)
    requires |piece| <= Room(offset) && offset / BLOCK_SIZE < |blocks|
    ensures offset + |piece| <= BLOCK_SIZE * |blocks|
    ensures Flat(Stored(data, blocks, offset, piece), blocks) == Splice(Flat(data, blocks), offset, piece)
  {
    var i, o := offset / BLOCK_SIZE, offset % BLOCK_SIZE;
    var flat, flat' := Flat(data, blocks), Flat(Stored(data, blocks, offset, piece), blocks);
    forall j | 0 <= j < |flat'| ensures flat'[j] == Splice(flat, offset, piece)[j] {
      var k := j / BLOCK_SIZE;
      assert k != i ==> blocks[k] != blocks[i];
      assert k == i <==> BLOCK_SIZE * i <= j < BLOCK_SIZE * i + BLOCK_SIZE;
    }
  }

  /** The write loop splices the bytes into the flat file. */
  lemma {:induction false} PatchIsSplice(data: map<nat, Block>, blocks: seq<nat>, offset: nat, bytes: seq<byte>)
    requires Held(data, blocks) && L.Distinct(blocks) && Within(blocks, offset, |bytes|)
    ensures offset + |bytes| <= BLOCK_SIZE * |blocks|
    ensures Flat(Patch(data, blocks, offset, bytes), blocks) == Splice(Flat(data, blocks), offset, bytes)
    decreases |bytes|
  {
    hide Flat, Room, Within, Held, Stored, L.Distinct, Splice;
    WithinRest(blocks, offset, |bytes|);
    var room := Room(offset);
    if |bytes| < room {
      StoredIsSplice(data, blocks, offset, bytes);
    } else {
      StoredIsSplice(data, blocks, offset, bytes[..room]);
      PatchIsSplice(Stored(data, blocks, offset, bytes[..room]), blocks, offset + room, bytes[room..]);
      assert bytes[..room] + bytes[room..] == bytes;
      SpliceTwice(Flat(data, blocks), offset, bytes[..room], bytes[room..]);
    }
  }

  lemma SpliceTwice(b: seq<byte>, o: nat, s: seq<byte>, t: seq<byte>)
    requires o + |s| + |t| <= |b|
    ensures Splice(Splice(b, o, s), o + |s|, t) == Splice(b, o, s + t)
  {
  }

  lemma StoredTwice(data: map<nat, Block>, blocks: seq<nat>, offset: nat, s: seq<byte>, t: seq<byte>)
    requires Held(data, blocks) && offset / BLOCK_SIZE < |blocks| && |s| < Room(offset) && |s| + |t| <= Room(offset)
    ensures (offset + |s|) / BLOCK_SIZE < |blocks| && Room(offset + |s|) == Room(offset) - |s|
    ensures Stored(Stored(data, blocks, offset, s), blocks, offset + |s|, t) == Stored(data, blocks, offset, s + t)
  {
    hide Splice;
    var i, o := offset / BLOCK_SIZE, offset % BLOCK_SIZE;
    assert (offset + |s|) / BLOCK_SIZE == i && (offset + |s|) % BLOCK_SIZE == o + |s|;
    SpliceTwice(data[blocks[i]], o, s, t);
  }

  /** The cut falls into the block where the range starts. */
  lemma PatchTwiceHere(data: map<nat, Block>, blocks: seq<nat>, offset: nat, s: seq<byte>, t: seq<byte>)
    requires Held(data, blocks) && Within(blocks, offset, |s + t|) && |s| < Room(offset)
    requires Within(blocks, offset, |s|)
    ensures Patch(Patch(data, blocks, offset, s), blocks, offset + |s|, t) == Patch(data, blocks, offset, s + t)
  {
    assert Within(blocks, offset + |s|, |t|);
    hide Room, Within, Held, Stored;
    WithinRest(blocks, offset, |s + t|);
    var room := Room(offset);
    if |s + t| < room {
      StoredTwice(data, blocks, offset, s, t);
    } else {
      var t1, t2 := t[..room - |s|], t[room - |s|..];
      StoredTwice(data, blocks, offset, s, t1);
      assert (s + t)[..room] == s + t1 && (s + t)[room..] == t2;
      assert Patch(data, blocks, offset, s) == Stored(data, blocks, offset, s);
    }
  }

  lemma CutFirst(s: seq<byte>, t: seq<byte>, n: nat)
    requires n <= |s|
    ensures (s + t)[..n] == s[..n] && (s + t)[n..] == s[n..] + t
  {
  }

  /** Storing `s` and then `t` right behind it stores `s + t`, wherever the cut falls. */
  lemma {:induction false} PatchTwice(data: map<nat, Block>, blocks: seq<nat>, offset: nat, s: seq<byte>, t: seq<byte>)
    requires Held(data, blocks) && Within(blocks, offset, |s + t|)
    ensures Within(blocks, offset, |s|) && Within(blocks, offset + |s|, |t|)
    ensures Patch(Patch(data, blocks, offset, s), blocks, offset + |s|, t) == Patch(data, blocks, offset, s + t)
    decreases |s|
  {
    hide Room, Within, Held, Stored, Patch;
    WithinSplit(blocks, offset, |s|, |t|);
    WithinRest(blocks, offset, |s + t|);
    if |s| >= Room(offset) {
      PatchTwiceLater(data, blocks, offset, s, t);
      PatchTwice(Stored(data, blocks, offset, s[..Room(offset)]), blocks, offset + Room(offset), s[Room(offset)..], t);
    } else {
      PatchTwiceHere(data, blocks, offset, s, t);
    }
  }

  lemma WithinSplit(blocks: seq<nat>, offset: nat, m: nat, n: nat)
    requires Within(blocks, offset, m + n)
    ensures Within(blocks, offset, m) && Within(blocks, offset + m, n)
  {
  }

  /** The cut falls into a later block: the first block gets the same bytes either way. */
  lemma PatchTwiceLater(data: map<nat, Block>, blocks: seq<nat>, offset: nat, s: seq<byte>, t: seq<byte>)
    requires Held(data, blocks) && Within(blocks, offset, |s + t|) && Within(blocks, offset, |s|) && |s| >= Room(offset)
    ensures offset / BLOCK_SIZE < |blocks| && Within(blocks, offset + Room(offset), |s[Room(offset)..] + t|)
    ensures Within(blocks, offset + Room(offset), |s[Room(offset)..]|)
    ensures var data1 := Stored(data, blocks, offset, s[..Room(offset)]);
            && Patch(data, blocks, offset, s) == Patch(data1, blocks, offset + Room(offset), s[Room(offset)..])
            && Patch(data, blocks, offset, s + t) == Patch(data1, blocks, offset + Room(offset), s[Room(offset)..] + t)
  {
    hide Room, Within, Held, Stored, Patch;
    CutFirst(s, t, Room(offset));
    PatchStep(data, blocks, offset, s + t);
    PatchStep(data, blocks, offset, s);
  }

  lemma PatchStep(data: map<nat, Block>, blocks: seq<nat>, offset: nat, bytes: seq<byte>)
    requires Held(data, blocks) && Within(blocks, offset, |bytes|) && Room(offset) <= |bytes|
    ensures offset / BLOCK_SIZE < |blocks| && Within(blocks, offset + Room(offset), |bytes| - Room(offset))
    ensures Patch(data, blocks, offset, bytes)
            == Patch(Stored(data, blocks, offset, bytes[..Room(offset)]), blocks, offset + Room(offset),
                bytes[Room(offset)..])
  {
    WithinRest(blocks, offset, |bytes|);
    hide Room, Within, Stored;
  }

  lemma PatchEnds(data: map<nat, Block>, blocks: seq<nat>, offset: nat, bytes: seq<byte>)
    requires Held(data, blocks) && Within(blocks, offset, |bytes|) && |bytes| < Room(offset)
    ensures offset / BLOCK_SIZE < |blocks| && Patch(data, blocks, offset, bytes) == Stored(data, blocks, offset, bytes)
  {
    WithinRest(blocks, offset, |bytes|);
    hide Room, Within, Stored;
  }

  /** The write loop is about to store its piece of the `i`-th block; `now` is what it has made of `data`. */
  ghost predicate WrittenUpTo(data: map<nat, Block>, now: map<nat, Block>, blocks: seq<nat>, offset: nat,
                              bytes: seq<byte>, i: nat)
    requires Held(data, blocks) && Within(blocks, offset, |bytes|) && offset / BLOCK_SIZE <= i
  {
    var pos := EntersAt(offset, i);
    if i <= (offset + |bytes|) / BLOCK_SIZE then
      && Held(now, blocks) && pos <= offset + |bytes| && Within(blocks, pos, offset + |bytes| - pos)
      && Patch(now, blocks, pos, bytes[pos - offset..]) == Patch(data, blocks, offset, bytes)
    else now == Patch(data, blocks, offset, bytes)
  }

  lemma WrittenNothing(data: map<nat, Block>, blocks: seq<nat>, offset: nat, bytes: seq<byte>)
    requires Held(data, blocks) && Within(blocks, offset, |bytes|)
    ensures WrittenUpTo(data, data, blocks, offset, bytes, offset / BLOCK_SIZE)
  {
    hide Patch;
    assert bytes[0..] == bytes;
  }

  lemma WrittenAll(data: map<nat, Block>, now: map<nat, Block>, blocks: seq<nat>, offset: nat, bytes: seq<byte>)
    requires Held(data, blocks) && Within(blocks, offset, |bytes|)
    requires WrittenUpTo(data, now, blocks, offset, bytes, (offset + |bytes|) / BLOCK_SIZE + 1)
    ensures now == Patch(data, blocks, offset, bytes)
  {
    hide Patch;
  }

  /** One turn of the write loop. */
  lemma WriteMore(data: map<nat, Block>, now: map<nat, Block>, blocks: seq<nat>, offset: nat, bytes: seq<byte>, i: nat)
    requires Held(data, blocks) && Within(blocks, offset, |bytes|)
    requires offset / BLOCK_SIZE <= i <= (offset + |bytes|) / BLOCK_SIZE
    requires WrittenUpTo(data, now, blocks, offset, bytes, i)
    ensures Held(now, blocks)
    ensures var pos, end := EntersAt(offset, i), LeavesAt(offset, |bytes|, i);
            WrittenUpTo(data, Stored(now, blocks, pos, bytes[pos - offset..end - offset]), blocks, offset, bytes, i + 1)
  {
    hide Patch, Room, Stored, Held, Within, EntersAt, LeavesAt;
    var pos, end := EntersAt(offset, i), LeavesAt(offset, |bytes|, i);
    var rest := bytes[pos - offset..];
    if i == (offset + |bytes|) / BLOCK_SIZE {
      PatchEnds(now, blocks, pos, rest);
      assert bytes[pos - offset..end - offset] == rest;
    } else {
      PatchStep(now, blocks, pos, rest);
      assert bytes[pos - offset..end - offset] == rest[..Room(pos)];
      assert bytes[end - offset..] == rest[Room(pos)..];
    }
  }

  /** Blocks behind the range do not matter. */
  lemma {:induction false} PatchPrefix(data: map<nat, Block>, blocks: seq<nat>, more: seq<nat>, offset: nat,
      bytes: seq<byte>)
    requires Held(data, more) && blocks <= more && Within(blocks, offset, |bytes|)
    ensures Held(data, blocks) && Within(more, offset, |bytes|)
    ensures Patch(data, blocks, offset, bytes) == Patch(data, more, offset, bytes)
    decreases |bytes|
  {
    WithinRest(blocks, offset, |bytes|);
    if |bytes| >= Room(offset) {
      var piece := bytes[..Room(offset)];
      PatchPrefix(Stored(data, more, offset, piece), blocks, more, offset + Room(offset), bytes[Room(offset)..]);
    }
  }
}
