/** Bitmaps packed into bytes, most significant bit first. */
module BitMap {
  import opened Bytes
  import Geometry

  // ----- one byte -----

  /** The mask `0x80 >> k`, as a number. */
  function Mask(k: nat): (m: nat)
    requires k < 8
    ensures m > 0
  {
    match k
    case 0 => 128
    case 1 => 64
    case 2 => 32
    case 3 => 16
    case 4 => 8
    case 5 => 4
    case 6 => 2
    case _ => 1
  }

  /** `(b & mask) != 0`. */
  predicate Bit(b: nat, k: nat)
    requires k < 8
  {
    b / Mask(k) % 2 == 1
  }

  /** `b | mask`. */
  function WithBit(b: byte, k: nat): byte
    requires k < 8
  {
    if Bit(b, k) then b else BitFits(b, k); b + Mask(k)
  }

  /** `b & ~mask`. */
  function WithoutBit(b: byte, k: nat): byte
    requires k < 8
  {
    if Bit(b, k) then b - Mask(k) else b
  }

  lemma BitFits(b: byte, k: nat)
    requires k < 8
    ensures if Bit(b, k) then Mask(k) <= b else b + Mask(k) < 256
  {
    var n := 1;
    if k > 0 {
      var m := MaskRatio(0, k);
      n := 2 * m;
      assert Mask(0) == 128;
    }
    assert Mask(k) * (2 * n) == 256;
    hide Mask;
    EvenRoom(b, Mask(k), n);
  }

  lemma EvenRoom(b: nat, w: nat, n: nat)
    requires w > 0 && b < w * (2 * n)
    ensures if b / w % 2 == 1 then w <= b else b + w < w * (2 * n)
  {
    var q, k := b / w, 2 * n - b / w;
    assert b == w * q + b % w;
    assert w * k == w * (2 * n) - w * q;
    Geometry.Multiple(w, q);
    Geometry.Multiple(w, k);
    Geometry.Multiple(w, k - 1);
    assert w * (k - 1) == w * k - w;
  }

  /** The ratio of two masks is a power of two. */
  lemma MaskRatio(k: nat, j: nat) returns (m: nat)
    requires k < j < 8
    ensures m > 0 && Mask(k) == 2 * Mask(j) * m
  {
    m := [1, 2, 4, 8, 16, 32, 64][j - k - 1];
    assert Mask(k) == 2 * Mask(j) * m by {
      if k == 0 {} else if k == 1 {} else if k == 2 {} else if k == 3 {} else if k == 4 {} else if k == 5 {} else {}
    }
  }

  /** Adding a multiple of twice a mask leaves that mask's bit alone. */
  lemma AddAbove(b: nat, v: nat, m: nat)
    requires v > 0
    ensures (b + 2 * v * m) / v % 2 == b / v % 2
  {
    var q, r := b / v, b % v;
    assert b + 2 * v * m == (q + 2 * m) * v + r;
    Geometry.DivMod(q + 2 * m, v, r);
  }

  /** Setting a clear bit leaves every higher bit alone. */
  lemma AddBelow(b: nat, w: nat, m: nat)
    requires w > 0 && m > 0 && b / w % 2 == 0
    ensures (b + w) / (2 * w * m) == b / (2 * w * m)
  {
    var e, r := b / w / 2, b % w;
    var f, g := e / m, e % m;
    Regroup(b, w, m, e, f, g, r);
    Geometry.DivMod(f, 2 * w * m, 2 * w * g + r);
    Geometry.DivMod(f, 2 * w * m, 2 * w * g + r + w);
  }

  lemma Regroup(b: nat, w: nat, m: nat, e: nat, f: nat, g: nat, r: nat)
    requires b == w * (2 * e) + r && e == f * m + g && r < w && g < m
    ensures b == f * (2 * w * m) + (2 * w * g + r) && 2 * w * g + r + w < 2 * w * m
  {
    Shuffle(w, f, m);
    Double(w, m, f);
    assert w * e == w * (f * m) + w * g;
    assert w * (g + 1) <= w * m;
  }

  lemma Double(w: nat, m: nat, f: nat)
    ensures f * (2 * w * m) == 2 * (f * (w * m)) && 2 * w * m == 2 * (w * m)
  {
  }

  lemma Shuffle(w: nat, f: nat, m: nat)
    ensures w * (f * m) == f * (w * m)
  {
  }

  lemma AddSame(b: nat, w: nat)
    requires w > 0
    ensures (b + w) / w == b / w + 1
  {
    assert b + w == (b / w + 1) * w + b % w;
    Geometry.DivMod(b / w + 1, w, b % w);
  }

  lemma BitAdded(b: nat, k: nat, j: nat)
    requires k < 8 && j < 8 && !Bit(b, k)
    ensures Bit(b + Mask(k), j) == (j == k || Bit(b, j))
  {
    hide Mask, Bit;
    BitIs(b, k);
    BitIs(b, j);
    BitIs(b + Mask(k), j);
    if j == k {
      AddSame(b, Mask(k));
    } else if j > k {
      var m := MaskRatio(k, j);
      AddAbove(b, Mask(j), m);
    } else {
      var m := MaskRatio(j, k);
      AddBelow(b, Mask(k), m);
    }
  }

  lemma BitIs(b: nat, k: nat)
    requires k < 8
    ensures Bit(b, k) <==> b / Mask(k) % 2 == 1
  {
  }

  lemma BitOfWith(b: byte, k: nat, j: nat)
    requires k < 8 && j < 8
    ensures Bit(WithBit(b, k), j) == (j == k || Bit(b, j))
  {
    if !Bit(b, k) {
      BitAdded(b, k, j);
    }
  }

  lemma BitOfWithout(b: byte, k: nat, j: nat)
    requires k < 8 && j < 8
    ensures Bit(WithoutBit(b, k), j) == (j != k && Bit(b, j))
  {
    if Bit(b, k) {
      BitFits(b, k);
      var w := Mask(k);
      assert b - w == (b / w - 1) * w + b % w;
      Geometry.DivMod(b / w - 1, w, b % w);
      BitAdded(b - w, k, j);
    }
  }

  // ----- packed bytes -----

  predicate BitAt(bytes: seq<byte>, pos: nat)
    requires pos < 8 * |bytes|
  {
    Bit(bytes[pos / 8], pos % 8)
  }

  function SetAt(bytes: seq<byte>, pos: nat): (r: seq<byte>)
    requires pos < 8 * |bytes|
    ensures |r| == |bytes|
  {
    bytes[pos / 8 := WithBit(bytes[pos / 8], pos % 8)]
  }

  function ResetAt(bytes: seq<byte>, pos: nat): (r: seq<byte>)
    requires pos < 8 * |bytes|
    ensures |r| == |bytes|
  {
    bytes[pos / 8 := WithoutBit(bytes[pos / 8], pos % 8)]
  }

  function Bits(bytes: seq<byte>, size: nat): (r: seq<bool>)
    requires size <= 8 * |bytes|
    ensures |r| == size
  {
    seq(size, pos requires 0 <= pos < size => BitAt(bytes, pos))
  }

  /** Setting a bit sets that bit of the map and no other, also in the shared byte. */
  lemma SetBits(bytes: seq<byte>, size: nat, pos: nat)
    requires pos < size <= 8 * |bytes|
    ensures Bits(SetAt(bytes, pos), size) == Bits(bytes, size)[pos := true]
  {
    forall j: nat | j < size ensures BitAt(SetAt(bytes, pos), j) == (j == pos || BitAt(bytes, j)) {
      if j / 8 == pos / 8 {
        BitOfWith(bytes[pos / 8], pos % 8, j % 8);
      }
    }
  }

  lemma ResetBits(bytes: seq<byte>, size: nat, pos: nat)
    requires pos < size <= 8 * |bytes|
    ensures Bits(ResetAt(bytes, pos), size) == Bits(bytes, size)[pos := false]
  {
    forall j: nat | j < size ensures BitAt(ResetAt(bytes, pos), j) == (j != pos && BitAt(bytes, j)) {
      if j / 8 == pos / 8 {
        BitOfWithout(bytes[pos / 8], pos % 8, j % 8);
      }
    }
  }

  /** How many bits from `p` on have the given value. */
  function Tally(bits: seq<bool>, p: nat, value: bool): nat
    decreases |bits| - p
  {
    if p >= |bits| then 0
    else (if bits[p] == value then 1 else 0) + Tally(bits, p + 1, value)
  }

  /** The tally is additive over positions, hence independent of the order of counting. */
  lemma {:induction false} TallyAfterUpdate(bits: seq<bool>, p: nat, value: bool, pos: nat)
    requires p <= pos < |bits| && bits[pos] != value
    ensures Tally(bits[pos := value], p, value) == Tally(bits, p, value) + 1
    decreases |bits| - p
  {
    if p < pos {
      TallyAfterUpdate(bits, p + 1, value, pos);
    } else {
      TallyFrame(bits, bits[pos := value], p + 1, value);
    }
  }

  lemma {:induction false} TallyFrame(bits: seq<bool>, bits': seq<bool>, p: nat, value: bool)
    requires |bits| == |bits'| && forall j :: p <= j < |bits| ==> bits[j] == bits'[j]
    ensures Tally(bits, p, value) == Tally(bits', p, value)
    decreases |bits| - p
  {
    if p < |bits| {
      TallyFrame(bits, bits', p + 1, value);
    }
  }

  /** The number of bytes a map of `size` bits takes. */
  function SizeInBytes(size: nat): nat {
    (size + 7) / 8
  }

  class BitMap {
    const data: array<byte>
    const sizeInBits: nat

    ghost predicate Valid()
      reads this
    {
      data.Length == SizeInBytes(sizeInBits)
    }

    ghost function Content(): (r: seq<bool>)
      requires Valid()
      reads this, data
      ensures |r| == sizeInBits
    {
      Bits(data[..], sizeInBits)
    }

    constructor (bytes: seq<byte>, size: nat)
      requires |bytes| >= SizeInBytes(size)
      ensures Valid() && fresh(data) && sizeInBits == size
      ensures data[..] == bytes[..SizeInBytes(size)] && Content() == Bits(bytes, size)
    {
      data := new byte[SizeInBytes(size)];
      sizeInBits := size;
      new;
      forall k | 0 <= k < data.Length {
        data[k] := bytes[k];
      }
      assert data[..] == bytes[..SizeInBytes(size)];
      assert forall pos: nat :: pos < size ==> BitAt(data[..], pos) == BitAt(bytes, pos);
    }

    method Get(pos: nat) returns (b: bool)
      requires Valid() && pos < 8 * data.Length
      ensures b == BitAt(data[..], pos)
      ensures pos < sizeInBits ==> b == Content()[pos]
    {
      b := Bit(data[pos / 8], pos % 8);
    }

    method Set(pos: nat)
      requires Valid() && pos < 8 * data.Length
      modifies data
      ensures data[..] == SetAt(old(data[..]), pos)
      ensures pos < sizeInBits ==> Content() == old(Content())[pos := true]
    {
      if pos < sizeInBits {
        SetBits(data[..], sizeInBits, pos);
      }
      ghost var bytes := data[..];
      data[pos / 8] := WithBit(data[pos / 8], pos % 8);
      assert data[..] == SetAt(bytes, pos);
    }

    method Reset(pos: nat)
      requires Valid() && pos < 8 * data.Length
      modifies data
      ensures data[..] == ResetAt(old(data[..]), pos)
      ensures pos < sizeInBits ==> Content() == old(Content())[pos := false]
    {
      if pos < sizeInBits {
        ResetBits(data[..], sizeInBits, pos);
      }
      ghost var bytes := data[..];
      data[pos / 8] := WithoutBit(data[pos / 8], pos % 8);
      assert data[..] == ResetAt(bytes, pos);
    }

    /** The first position from `start` on whose bit has the given value. */
    method NextBit(start: nat, value: bool) returns (r: Option<nat>)
      requires Valid()
      ensures r.Some? ==> start <= r.value < sizeInBits && Content()[r.value] == value
      ensures forall k :: start <= k < (if r.Some? then r.value else sizeInBits) ==> Content()[k] != value
    {
      var pos := start;
      while pos < sizeInBits
        invariant start <= pos
        invariant forall k :: start <= k < pos && k < sizeInBits ==> Content()[k] != value
      {
        var b := Get(pos);
        if b == value {
          return Some(pos);
        }
        pos := pos + 1;
      }
      r := None;
    }

    method Count(start: nat, value: bool) returns (cnt: nat)
      requires Valid()
      ensures cnt == Tally(Content(), start, value)
    {
      cnt := 0;
      var p := start;
      while p < sizeInBits
        invariant start <= p
        invariant cnt + Tally(Content(), p, value) == Tally(Content(), start, value)
        decreases sizeInBits - p
      {
        var b := Get(p);
        if b == value {
          cnt := cnt + 1;
        }
        p := p + 1;
      }
    }
  }
}
