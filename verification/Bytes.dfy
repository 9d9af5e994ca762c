/** Bytes, fixed-width integers and the seekable file every driver runs on. */
module Bytes {

  type Byte = x: int | 0 <= x < 256

  datatype Option<T> = None | Some(value: T)

  function Min(a: int, b: int): int { if a <= b then a else b }

  function Max(a: int, b: int): int { if a <= b then b else a }

  /** Rounding division of naturals: the source's (n + d - 1) // d. */
  function CeilDiv(n: nat, d: nat): nat
    requires d > 0
  {
    (n + d - 1) / d
  }

  /** As few of them as hold n. */
  lemma CeilDivIs(n: nat, d: nat)
    requires d > 0
    ensures CeilDiv(n, d) * d - d < n <= CeilDiv(n, d) * d
  {
    var x := n + d - 1;
    assert x / d * d <= x < x / d * d + d;
  }

  function Fill(n: nat, b: Byte): seq<Byte> { seq(n, _ => b) }

  function Zeros(n: nat): seq<Byte> { Fill(n, 0) }

  /** What a file holds after s is written at p; a hole before p reads as zeros. */
  function Overwrite(d: seq<Byte>, p: nat, s: seq<Byte>): seq<Byte> {
    if s == [] then d
    else
      seq(Max(|d|, p + |s|), k requires 0 <= k < Max(|d|, p + |s|) =>
        if p <= k < p + |s| then s[k - p] else if k < |d| then d[k] else 0)
  }

  lemma OverwriteAt(d: seq<Byte>, p: nat, s: seq<Byte>, k: nat)
    requires p + |s| <= |d| && k < |d|
    ensures |Overwrite(d, p, s)| == |d|
    ensures Overwrite(d, p, s)[k] == if p <= k < p + |s| then s[k - p] else d[k]
  {
  }

  /** The same bytes written in two places. */
  lemma TwoWrites(d: seq<Byte>, p: nat, q: nat, s: seq<Byte>)
    requires p + |s| <= q && q + |s| <= |d|
    ensures |Overwrite(d, p, s)| == |d| == |Overwrite(Overwrite(d, p, s), q, s)|
    ensures forall k :: 0 <= k < |d| ==>
      Overwrite(Overwrite(d, p, s), q, s)[k] == if p <= k < p + |s| then s[k - p] else if q <= k < q + |s| then s[k - q] else d[k]
  {
    var e := Overwrite(d, p, s);
    var r := Overwrite(e, q, s);
    forall k | 0 <= k < |d| ensures r[k] == if p <= k < p + |s| then s[k - p] else if q <= k < q + |s| then s[k - q] else d[k] {
      OverwriteAt(d, p, s, k);
      OverwriteAt(e, q, s, k);
    }
  }

  /** A byte of d, zero outside it. */
  function At(d: seq<Byte>, k: int): Byte { if 0 <= k < |d| then d[k] else 0 }

  lemma AtOverwrite(d: seq<Byte>, p: nat, s: seq<Byte>, k: int)
    ensures At(Overwrite(d, p, s), k) == if p <= k < p + |s| then s[k - p] else At(d, k)
    ensures |Overwrite(d, p, s)| == if s == [] then |d| else Max(|d|, p + |s|)
  {
  }

  /** As many bytes written over others. */
  lemma Covered(d: seq<Byte>, p: nat, a: seq<Byte>, b: seq<Byte>)
    requires |a| == |b|
    ensures Overwrite(Overwrite(d, p, a), p, b) == Overwrite(d, p, b)
  {
    var x, y := Overwrite(Overwrite(d, p, a), p, b), Overwrite(d, p, b);
    assert |x| == |y|;
    forall k | 0 <= k < |x| ensures x[k] == y[k] {
    }
  }

  /** What reading n bytes at p returns: the bytes that exist, no more. */
  function ReadAt(d: seq<Byte>, p: nat, n: nat): seq<Byte> {
    if p >= |d| then [] else d[p..Min(p + n, |d|)]
  }

  lemma Mono(a: int, b: int, m: nat)
    requires a <= b
    ensures a * m <= b * m && m * a <= m * b
  {
  }

  lemma Product(n: nat, m: nat)
    ensures n * m >= 0
  {
  }

  /** Little-endian WORD and DWORD, big-endian DWORD. */
  function U16(d: seq<Byte>, p: nat): nat
    requires p + 2 <= |d|
  {
    d[p] as int + 256 * d[p + 1] as int
  }

  function U32(d: seq<Byte>, p: nat): nat
    requires p + 4 <= |d|
  {
    d[p] as int + 256 * d[p + 1] as int + 0x1_0000 * d[p + 2] as int + 0x100_0000 * d[p + 3] as int
  }

  function U32BE(d: seq<Byte>, p: nat): nat
    requires p + 4 <= |d|
  {
    0x100_0000 * d[p] as int + 0x1_0000 * d[p + 1] as int + 256 * d[p + 2] as int + d[p + 3] as int
  }

  function Pack16(v: nat): (s: seq<Byte>)
    requires v < 0x1_0000
    ensures |s| == 2 && U16(s, 0) == v
  {
    [v % 256, v / 256]
  }

  lemma FourBytes(v: nat)
    requires v < 0x1_0000_0000
    ensures v / 0x100_0000 < 256
    ensures v == v % 256 + 256 * (v / 256 % 256) + 0x1_0000 * (v / 0x1_0000 % 256) + 0x100_0000 * (v / 0x100_0000)
  {
    var a := v / 256;
    var b := a / 256;
    assert v == v % 256 + 256 * a && a == a % 256 + 256 * b && b == b % 256 + 256 * (b / 256);
    Shifted(v);
  }

  lemma Shifted(v: nat)
    ensures v / 0x1_0000 == v / 256 / 256
    ensures v / 0x100_0000 == v / 256 / 256 / 256
  {
  }

  function Pack32(v: nat): (s: seq<Byte>)
    requires v < 0x1_0000_0000
    ensures |s| == 4 && U32(s, 0) == v
  {
    FourBytes(v);
    [v % 256, v / 256 % 256, v / 0x1_0000 % 256, v / 0x100_0000]
  }

  function Pack32BE(v: nat): (s: seq<Byte>)
    requires v < 0x1_0000_0000
    ensures |s| == 4 && U32BE(s, 0) == v
  {
    FourBytes(v);
    [v / 0x100_0000, v / 0x1_0000 % 256, v / 256 % 256, v % 256]
  }

  /** A seekable file: writes past the end extend it, reads stop at the end. */
  class File {
    var data: seq<Byte>
    var pos: nat

    constructor (d: seq<Byte>)
      ensures data == d && pos == 0
    {
      data := d;
      pos := 0;
    }

    method Seek(p: nat)
      modifies this`pos
      ensures pos == p
    {
      pos := p;
    }

    method Read(n: nat) returns (s: seq<Byte>)
      modifies this`pos
      ensures s == ReadAt(data, old(pos), n)
      ensures pos == old(pos) + |s|
    {
      s := ReadAt(data, pos, n);
      pos := pos + |s|;
    }

    method Write(s: seq<Byte>)
      modifies this
      ensures data == Overwrite(old(data), old(pos), s)
      ensures pos == old(pos) + |s|
    {
      data := Overwrite(data, pos, s);
      pos := pos + |s|;
    }
  }
}
