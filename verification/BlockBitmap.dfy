/** The sector bitmap in front of an image block, in the bit order of VHD and in that of VHDX. */
module BlockBitmaps {
  import opened Bytes
  import opened Bits

  /** Which end of a byte holds its first sector. */
  datatype Order = MsbFirst | LsbFirst

  function Place(o: Order, k: nat): nat
    requires k < 8
  {
    if o.MsbFirst? then 7 - k else k
  }

  /** The mask isset tests with. */
  function Probe(o: Order, k: nat): nat {
    if o.MsbFirst? then Shr(128, k) else Shl(1, k)
  }

  /** The mask for todo sectors of a byte, from the rem-th on. */
  function HeadMask(o: Order, todo: nat, rem: nat): nat
    requires todo <= 8
  {
    if o.MsbFirst? then Shr(And(Shl(0xFF, 8 - todo), 0xFF), rem) else Shl(And(Shr(0xFF, 8 - todo), 0xFF), rem)
  }

  /** The mask for the first rem sectors of a byte. */
  function TailMask(o: Order, rem: nat): nat
    requires rem <= 8
  {
    if o.MsbFirst? then And(Shl(0xFF, 8 - rem), 0xFF) else And(Shr(0xFF, 8 - rem), 0xFF)
  }

  function Masked(b: nat, mask: nat, clear: bool): nat {
    if clear then AndNot(b, mask) else Or(b, mask)
  }

  predicate IsSet(o: Order, bmp: seq<Byte>, sector: nat)
    requires sector < 8 * |bmp|
  {
    And(bmp[sector / 8], Probe(o, sector % 8)) != 0
  }

  lemma ProbeBit(o: Order, k: nat, j: nat)
    requires k < 8
    ensures Bit(Probe(o, k), j) <==> j == Place(o, k)
  {
    var one := if o.MsbFirst? then 7 else k;
    assert Bit(1, 0);
    if o.MsbFirst? {
      ShrBit(128, k, j);
      assert Shl(1, 4) == 16;
      assert Shl(1, 7) == 128;
    }
    var p := if o.MsbFirst? then j + k else j;
    ShlBit(1, one, p);
    if p > one {
      ZeroBit(p - one - 1);
    }
  }

  /** Testing with the probe reads one bit. */
  lemma ProbeReads(o: Order, b: nat, k: nat)
    requires k < 8
    ensures And(b, Probe(o, k)) != 0 <==> Bit(b, Place(o, k))
  {
    var m := And(b, Probe(o, k));
    AndBit(b, Probe(o, k), Place(o, k));
    ProbeBit(o, k, Place(o, k));
    if m == 0 {
      ZeroBit(Place(o, k));
    } else {
      var j := HighBit(m);
      AndBit(b, Probe(o, k), j);
      ProbeBit(o, k, j);
    }
  }

  /** The bit of the k-th sector of a byte, its highest or its lowest first. */
  predicate SectorBit(o: Order, b: nat, k: nat)
    requires k < 8
  {
    b / (if o.MsbFirst? then [128, 64, 32, 16, 8, 4, 2, 1] else [1, 2, 4, 8, 16, 32, 64, 128])[k] % 2 == 1
  }

  /** A sector is marked by that bit of byte sector / 8. */
  lemma MarkIs(o: Order, bmp: seq<Byte>, sector: nat)
    requires sector < 8 * |bmp|
    ensures IsSet(o, bmp, sector) <==> SectorBit(o, bmp[sector / 8] as int, sector % 8)
  {
    ProbeReads(o, bmp[sector / 8], sector % 8);
    BitAt(bmp[sector / 8], Place(o, sector % 8));
    hide Probe, And;
  }

  lemma {:induction false} BitAt(b: nat, j: nat)
    requires j < 8
    ensures Bit(b, j) <==> b / [1, 2, 4, 8, 16, 32, 64, 128][j] % 2 == 1
  {
    if j > 0 {
      BitAt(b / 2, j - 1);
      Halved(b, j);
    }
  }

  lemma Halved(b: nat, j: nat)
    requires 0 < j < 8
    ensures b / 2 / [1, 2, 4, 8, 16, 32, 64, 128][j - 1] == b / [1, 2, 4, 8, 16, 32, 64, 128][j]
  {
  }

  lemma HeadBitMsb(todo: nat, rem: nat, j: nat)
    requires todo + rem <= 8
    ensures Bit(HeadMask(MsbFirst, todo, rem), j) <==> j < 8 && rem <= 7 - j < rem + todo
  {
    hide Bit, Shl, Shr, And;
    ShrBit(And(Shl(0xFF, 8 - todo), 0xFF), rem, j);
    AndBit(Shl(0xFF, 8 - todo), 0xFF, rem + j);
    Ones(rem + j);
    ShlBit(0xFF, 8 - todo, rem + j);
    if rem + j >= 8 - todo {
      Ones(rem + j - (8 - todo));
    }
  }

  lemma HeadBitLsb(todo: nat, rem: nat, j: nat)
    requires todo + rem <= 8
    ensures Bit(HeadMask(LsbFirst, todo, rem), j) <==> rem <= j < rem + todo
  {
    hide Bit, Shl, Shr, And;
    ShlBit(And(Shr(0xFF, 8 - todo), 0xFF), rem, j);
    if j >= rem {
      AndBit(Shr(0xFF, 8 - todo), 0xFF, j - rem);
      Ones(j - rem);
      ShrBit(0xFF, 8 - todo, j - rem);
      Ones(8 - todo + j - rem);
    }
  }

  lemma HeadBit(o: Order, todo: nat, rem: nat, j: nat)
    requires todo + rem <= 8
    ensures Bit(HeadMask(o, todo, rem), j) <==> j < 8 && rem <= Place(o, j) < rem + todo
  {
    if o.MsbFirst? {
      HeadBitMsb(todo, rem, j);
    } else {
      HeadBitLsb(todo, rem, j);
    }
  }

  lemma TailIsHead(o: Order, rem: nat)
    requires rem <= 8
    ensures TailMask(o, rem) == HeadMask(o, rem, 0)
  {
  }

  /** Setting or clearing with a mask changes the masked sectors of the byte, and stays a byte. */
  lemma MaskedByte(o: Order, b: Byte, todo: nat, rem: nat, clear: bool)
    requires todo + rem <= 8
    ensures Masked(b, HeadMask(o, todo, rem), clear) < 256
    ensures forall k {:trigger Place(o, k)} :: 0 <= k < 8 ==>
      (Bit(Masked(b, HeadMask(o, todo, rem), clear), Place(o, k)) <==>
        if rem <= k < rem + todo then !clear else Bit(b, Place(o, k)))
  {
    var mask := HeadMask(o, todo, rem);
    forall j: nat
      ensures Bit(Masked(b, mask, clear), j) <==> if Bit(mask, j) then !clear else Bit(b, j)
    {
      OrBit(b, mask, j);
      AndNotBit(b, mask, j);
    }
    forall k {:trigger Place(o, k)} | 0 <= k < 8
      ensures Bit(mask, Place(o, k)) <==> rem <= k < rem + todo
    {
      HeadBit(o, todo, rem, Place(o, k));
    }
    forall j: nat | j >= 8 ensures !Bit(Masked(b, mask, clear), j) {
      HeadBit(o, todo, rem, j);
      Eight();
      NoHigh(b, 8, j);
    }
    Eight();
    Narrow(Masked(b, mask, clear), 8);
  }

  /** b is a with the sectors from..from+n set (or cleared) and every other one as it was. */
  ghost predicate Marks(o: Order, a: seq<Byte>, b: seq<Byte>, from: nat, n: nat, clear: bool) {
    && |b| == |a| && from + n <= 8 * |a|
    && forall k {:trigger IsSet(o, b, k)} :: 0 <= k < 8 * |a| ==>
         (IsSet(o, b, k) <==> if from <= k < from + n then !clear else IsSet(o, a, k))
  }

  lemma MarksNothing(o: Order, a: seq<Byte>, from: nat, clear: bool)
    requires from <= 8 * |a|
    ensures Marks(o, a, a, from, 0, clear)
  {
  }

  lemma MarksJoin(o: Order, a: seq<Byte>, b: seq<Byte>, c: seq<Byte>, from: nat, n: nat, m: nat, clear: bool)
    requires Marks(o, a, b, from, n, clear) && Marks(o, b, c, from + n, m, clear)
    ensures Marks(o, a, c, from, n + m, clear)
  {
    hide IsSet;
  }

  lemma MarksByte(o: Order, a: seq<Byte>, pos: nat, todo: nat, rem: nat, clear: bool)
    requires pos < |a| && todo + rem <= 8
    ensures Masked(a[pos], HeadMask(o, todo, rem), clear) < 256
    ensures Marks(o, a, a[pos := Masked(a[pos], HeadMask(o, todo, rem), clear)], 8 * pos + rem, todo, clear)
  {
    MaskedByte(o, a[pos], todo, rem, clear);
    var b := a[pos := Masked(a[pos], HeadMask(o, todo, rem), clear)];
    hide Masked, HeadMask, Probe, Place;
    forall k | 0 <= k < 8 * |a|
      ensures IsSet(o, b, k) <==> if 8 * pos + rem <= k < 8 * pos + rem + todo then !clear else IsSet(o, a, k)
    {
      ProbeReads(o, a[k / 8], k % 8);
      ProbeReads(o, b[k / 8], k % 8);
    }
  }

  /** A slice assignment of whole bytes. */
  function Spliced(a: seq<Byte>, pos: nat, n: nat, v: Byte): (r: seq<Byte>)
    requires pos + n <= |a|
    ensures |r| == |a|
  {
    a[..pos] + Fill(n, v) + a[pos + n..]
  }

  lemma MarksBytes(o: Order, a: seq<Byte>, pos: nat, n: nat, clear: bool)
    requires pos + n <= |a|
    ensures Marks(o, a, Spliced(a, pos, n, if clear then 0 else 0xFF), 8 * pos, 8 * n, clear)
  {
    var v: Byte := if clear then 0 else 0xFF;
    var b := Spliced(a, pos, n, v);
    forall k | 0 <= k < 8 * |a|
      ensures IsSet(o, b, k) <==> if 8 * pos <= k < 8 * pos + 8 * n then !clear else IsSet(o, a, k)
    {
      assert b[k / 8] == if pos <= k / 8 < pos + n then v else a[k / 8];
      ProbeReads(o, b[k / 8], k % 8);
      Ones(Place(o, k % 8));
      ZeroBit(Place(o, k % 8));
    }
  }

  class BlockBitmap {
    const order: Order
    const i: nat
    var bmp: seq<Byte>
    var modified: bool

    constructor (order: Order, s: seq<Byte>, i: nat)
      ensures bmp == s && this.i == i && this.order == order && !modified
    {
      this.order := order;
      this.i := i;
      bmp := s;
      modified := false;
    }

    predicate Test(sector: nat)
      requires sector < 8 * |bmp|
      reads this`bmp
    {
      IsSet(order, bmp, sector)
    }

    /** set: marks a run of sectors; the VHDX twin skips a single bit that is already set. */
    method Set(sector: nat, length: nat, clear: bool)
      requires sector + length <= 8 * |bmp|
      requires length == 1 ==> sector < 8 * |bmp|
      modifies this`bmp, this`modified
      ensures Marks(order, old(bmp), bmp, sector, length, clear)
      ensures old(modified) ==> modified
      ensures order.LsbFirst? && bmp != old(bmp) ==> modified
    {
      MarksNothing(order, bmp, sector, clear);
      if order.LsbFirst? && !clear && length == 1 && Test(sector) {
        return;
      }
      modified := order.LsbFirst? || modified;
      Store(sector, length, clear);
    }

    /** The partial byte at the start, the whole bytes, the partial byte at the end. */
    method Store(sector: nat, length: nat, clear: bool)
      requires sector + length <= 8 * |bmp|
      modifies this`bmp
      ensures Marks(order, old(bmp), bmp, sector, length, clear)
    {
      hide IsSet, Masked, HeadMask, TailMask;
      ghost var a := bmp;
      var done := StoreHead(sector, length, clear);
      ghost var b := bmp;
      BitmapRoom(|bmp|, sector, length, done);
      var pos, left := (sector + done) / 8, length - done;
      StoreBytes(pos, left / 8, clear);
      ghost var c := bmp;
      var at := pos + left / 8;
      if left % 8 != 0 {
        MarksByte(order, c, at, left % 8, 0, clear);
        TailIsHead(order, left % 8);
        bmp := bmp[at := Masked(bmp[at], TailMask(order, left % 8), clear)];
      } else {
        MarksNothing(order, c, 8 * at, clear);
      }
      if left > 0 {
        MarksJoin(order, b, c, bmp, 8 * pos, left / 8 * 8, left % 8, clear);
        MarksJoin(order, a, b, bmp, sector, done, left, clear);
      } else {
        SameMarks(order, a, b, c, sector, done, pos, clear);
      }
    }

    method StoreHead(sector: nat, length: nat, clear: bool) returns (done: nat)
      requires sector + length <= 8 * |bmp|
      modifies this`bmp
      ensures done <= length && (done == length || (sector + done) % 8 == 0)
      ensures Marks(order, old(bmp), bmp, sector, done, clear)
    {
      var pos, rem := sector / 8, sector % 8;
      done := 0;
      MarksNothing(order, bmp, sector, clear);
      if rem != 0 {
        done := Min(8 - rem, length);
        MarksByte(order, bmp, pos, done, rem, clear);
        hide Marks, Masked, HeadMask;
        bmp := bmp[pos := Masked(bmp[pos], HeadMask(order, done, rem), clear)];
      }
    }

    /** Whole bytes, at most 32768 at a time. */
    method StoreBytes(start: nat, count: nat, clear: bool)
      requires start + count <= |bmp|
      modifies this`bmp
      ensures Marks(order, old(bmp), bmp, 8 * start, 8 * count, clear)
    {
      hide Marks, Spliced;
      var pos: nat, octets: nat := start, count;
      MarksNothing(order, bmp, 8 * start, clear);
      while octets > 0
        invariant pos + octets == start + count && pos >= start && |bmp| == |old(bmp)|
        invariant Marks(order, old(bmp), bmp, 8 * start, 8 * (pos - start), clear)
      {
        var i := Min(32768, octets);
        octets := octets - i;
        MarksBytes(order, bmp, pos, i, clear);
        ghost var b := bmp;
        bmp := Spliced(bmp, pos, i, if clear then 0 else 0xFF);
        MarksJoin(order, old(bmp), b, bmp, 8 * start, 8 * (pos - start), 8 * i, clear);
        pos := pos + i;
      }
    }
  }

  lemma BitmapRoom(bytes: nat, sector: nat, length: nat, done: nat)
    requires sector + length <= 8 * bytes && done <= length && (done == length || (sector + done) % 8 == 0)
    ensures (sector + done) / 8 + (length - done) / 8 <= bytes
    ensures (length - done) % 8 != 0 ==> (sector + done) / 8 + (length - done) / 8 < bytes
    ensures done != length ==> 8 * ((sector + done) / 8) == sector + done
  {
  }

  lemma SameMarks(o: Order, a: seq<Byte>, b: seq<Byte>, c: seq<Byte>, from: nat, n: nat, pos: nat, clear: bool)
    requires Marks(o, a, b, from, n, clear) && Marks(o, b, c, 8 * pos, 0, clear)
    ensures Marks(o, a, c, from, n, clear)
  {
    hide IsSet;
  }
}
