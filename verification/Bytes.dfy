/** Bytes, fixed-size blocks and the little-endian fields laid over them. */
module Bytes {

  /** An unsigned 8-bit value. */
  type byte = x: nat | x < 256

  datatype Option<+T> = None | Some(value: T)

  const BLOCK_SIZE: nat := 1024

  /** One disk block.  The file system is written for blocks of 1 KB only. */
  type Block = b: seq<byte> | |b| == BLOCK_SIZE witness seq(BLOCK_SIZE, _ => 0)

  function ZeroBlock(): (b: Block)
    ensures forall k :: 0 <= k < BLOCK_SIZE ==> b[k] == 0
  {
    seq(BLOCK_SIZE, _ => 0)
  }

  /** The low byte of `n`, as a store to a `uint8_t` keeps it. */
  function Byte(n: nat): byte {
    n % 256
  }

  function Le16(b: seq<byte>, o: nat): (v: nat)
    requires o + 2 <= |b|
    ensures v < 0x1_0000
  {
    b[o] as nat + 0x100 * b[o + 1] as nat
  }

  function Le32(b: seq<byte>, o: nat): (v: nat)
    requires o + 4 <= |b|
    ensures v < 0x1_0000_0000
  {
    b[o] as nat + 0x100 * b[o + 1] as nat + 0x1_0000 * b[o + 2] as nat + 0x100_0000 * b[o + 3] as nat
  }

  function Put16(v: nat): (s: seq<byte>)
    ensures |s| == 2
  {
    [Byte(v), Byte(v / 0x100)]
  }

  function Put32(v: nat): (s: seq<byte>)
    ensures |s| == 4
  {
    [Byte(v), Byte(v / 0x100), Byte(v / 0x1_0000), Byte(v / 0x100_0000)]
  }

  /** The effect of `memcpy(b + o, s, |s|)`. */
  function Splice<T>(b: seq<T>, o: nat, s: seq<T>): (r: seq<T>)
    requires o + |s| <= |b|
    ensures |r| == |b|
    ensures forall k {:trigger r[k]} :: 0 <= k < |b| ==> r[k] == if o <= k < o + |s| then s[k - o] else b[k]
  {
    b[..o] + s + b[o + |s|..]
  }

  /** A number is made up of its base-256 digits. */
  lemma Digits(v: nat)
    requires v < 0x1_0000_0000
    ensures v == Byte(v) as nat + 0x100 * Byte(v / 0x100) as nat + 0x1_0000 * Byte(v / 0x1_0000) as nat
                 + 0x100_0000 * Byte(v / 0x100_0000) as nat
  {
    var q := v / 0x100;
    var r := q / 0x100;
    assert v / 0x1_0000 == r;
    assert v / 0x100_0000 == r / 0x100;
    assert v == v % 0x100 + 0x100 * q;
    assert q == q % 0x100 + 0x100 * r;
    assert r == r % 0x100 + 0x100 * (r / 0x100);
  }

  lemma SpliceAt<T>(b: seq<T>, o: nat, s: seq<T>, j: nat)
    requires o + |s| <= |b| && j < |s|
    ensures Splice(b, o, s)[o + j] == s[j]
  {
  }

  lemma WordInBytes(c: seq<byte>, p: nat, v: nat)
    requires p + 4 <= |c| && v < 0x1_0000_0000
    requires c[p] == Put32(v)[0] && c[p + 1] == Put32(v)[1] && c[p + 2] == Put32(v)[2] && c[p + 3] == Put32(v)[3]
    ensures Le32(c, p) == v
  {
    Digits(v);
  }

  lemma SplicedWord(b: seq<byte>, o: nat, s: seq<byte>, p: nat, v: nat)
    requires o + |s| <= |b| && p + 4 <= |s| && v < 0x1_0000_0000
    requires s[p] == Put32(v)[0] && s[p + 1] == Put32(v)[1] && s[p + 2] == Put32(v)[2] && s[p + 3] == Put32(v)[3]
    ensures Le32(Splice(b, o, s), o + p) == v
  {
    Digits(v);
  }

  /** Writing a 16-bit field and reading it back. */
  lemma Put16Le16(b: seq<byte>, o: nat, v: nat)
    requires o + 2 <= |b| && v < 0x1_0000
    ensures Le16(Splice(b, o, Put16(v)), o) == v
  {
    var c := Splice(b, o, Put16(v));
    assert c[o] == Byte(v) && c[o + 1] == Byte(v / 0x100);
    Digits(v);
  }

  /** `memcpy` into a fixed buffer. */
  method Copy(dst: array<byte>, o: nat, s: seq<byte>)
    requires o + |s| <= dst.Length
    modifies dst
    ensures dst[..] == Splice(old(dst[..]), o, s)
  {
    forall k | 0 <= k < |s| {
      dst[o + k] := s[k];
    }
  }
}
