/** The on-disk FAT as an array: packing of 12, 16 and 32 bit slots, two copies. */
module FatTable {
  import opened Bytes

  /** The 12 bits of one slot inside its little-endian WORD, and the WORD after storing them. */
  function Get12(odd: bool, w: nat): nat { if odd then w / 16 else w % 0x1000 }

  function Put12(odd: bool, w: nat, v: nat): (r: nat)
    requires w < 0x1_0000 && v < 0x1000
    ensures r < 0x1_0000 && Get12(odd, r) == v
    ensures odd ==> r % 16 == w % 16
    ensures !odd ==> r / 0x1000 == w / 0x1000
  {
    if odd then v * 16 + w % 16 else w / 0x1000 * 0x1000 + v
  }

  /** An even slot shares its high byte's high nibble with the next (odd) slot. */
  lemma NextOddKept(w: nat, w': nat, hi: nat)
    requires w < 0x1_0000 && w' < 0x1_0000 && w / 0x1000 == w' / 0x1000
    ensures Get12(true, w / 256 + 256 * hi) == Get12(true, w' / 256 + 256 * hi)
  {
    DivDiv(w, hi);
    DivDiv(w', hi);
  }

  lemma DivDiv(w: nat, hi: nat)
    ensures (w / 256 + 256 * hi) / 16 == w / 0x1000 + 16 * hi
  {
    var q, r := w / 256, w % 256;
    var a, b := q / 16, q % 16;
    assert w == 0x1000 * a + (256 * b + r);
    assert q + 256 * hi == 16 * (a + 16 * hi) + b;
  }

  /** An odd slot shares its low byte's low nibble with the previous (even) slot. */
  lemma PreviousEvenKept(lo: nat, w: nat, w': nat)
    requires lo < 256 && w < 0x1_0000 && w' < 0x1_0000 && w % 16 == w' % 16
    ensures Get12(false, lo + 256 * (w % 256)) == Get12(false, lo + 256 * (w' % 256))
  {
    ModMod(w);
    ModMod(w');
    LowPart(lo, w % 256);
    LowPart(lo, w' % 256);
  }

  lemma ModMod(w: nat)
    ensures w % 256 % 16 == w % 16
  {
    var q, r := w / 256, w % 256;
    var a, b := r / 16, r % 16;
    var k := 16 * q + a;
    assert w == 16 * k + b && 0 <= b < 16;
    assert w / 16 == k;
  }

  lemma LowPart(lo: nat, b: nat)
    requires lo < 256 && b < 256
    ensures (lo + 256 * b) % 0x1000 == lo + 256 * (b % 16)
  {
    var q, r := b / 16, b % 16;
    assert lo + 256 * b == 0x1000 * q + (lo + 256 * r);
  }

  lemma Places12(i: nat, j: nat)
    ensures i * 12 / 8 == i + i / 2
    ensures i % 2 == 0 ==> (i + 1) * 12 / 8 == i * 12 / 8 + 1
    ensures j < i ==> j * 12 / 8 + (if j + 1 == i && i % 2 == 1 then 1 else 2) <= i * 12 / 8
  {
  }

  lemma Halves(c: nat)
    requires c >= 2
    ensures 3 + (c - 2) / 2 * 3 + (if c % 2 == 0 then 0 else 1) == c + c / 2
  {
    var q := c / 2;
    assert (c - 2) / 2 == q - 1 && c == 2 * q + c % 2;
  }

  /** Where the two copies lie, how wide a slot is and how many clusters there are. */
  datatype Geometry = Geometry(bits: nat, offset: nat, offset2: nat, size: nat) {

    function Reserved(): nat {
      if bits == 12 then 0x0FF7 else if bits == 16 then 0xFFF7 else 0x0FFF_FFF7
    }

    /** The end-of-chain mark this driver writes. */
    function Last(): nat {
      if bits == 12 then 0x0FFF else if bits == 16 then 0xFFFF else 0x0FFF_FFF8
    }

    function RealLast(): int { Min(Reserved() - 1, size + 1) }

    function Limit(): nat {
      if bits == 12 then 0x1000 else if bits == 16 then 0x1_0000 else 0x1_0000_0000
    }

    function ByteLen(): nat {
      if bits == 12 then ((size + 2) * 12 + 7) / 8
      else if bits == 16 then ((size + 2) * 16 + 7) / 8
      else ((size + 2) * 32 + 7) / 8
    }

    /** Byte displacement of slot i inside a copy: (i*bits)//8. */
    function Disp(i: nat): nat {
      if bits == 12 then i * 12 / 8 else if bits == 16 then i * 16 / 8 else i * 32 / 8
    }

    function SlotSize(): nat { if bits == 32 then 4 else 2 }

    /** Clusters fit the slot width (at most 2^bits - 11 of them) and the copies do not overlap. */
    predicate Valid() {
      && (bits == 12 || bits == 16 || bits == 32)
      && size + 1 < Reserved()
      && offset + ByteLen() <= offset2
    }

    predicate Fits(d: seq<Byte>) { Valid() && offset2 + ByteLen() <= |d| }

    /** A cluster index that can be stored and read: 2 up to RealLast. */
    predicate Usable(c: int) { 2 <= c <= RealLast() }

    lemma SlotInside(i: nat)
      requires Valid() && i < size + 2
      ensures Disp(i) + SlotSize() <= ByteLen()
    {
    }

    function Entry(d: seq<Byte>, i: nat): nat
      requires Fits(d) && i < size + 2
    {
      SlotInside(i);
      if bits == 12 then
        Get12(i % 2 == 1, U16(d, offset + Disp(i)))
      else if bits == 16 then U16(d, offset + Disp(i))
      else U32(d, offset + Disp(i))
    }

    /** Slot i as decoded from its bytes. */
    function Decode(i: nat, s: seq<Byte>): nat
      requires |s| == SlotSize()
    {
      if bits == 12 then Get12(i % 2 == 1, U16(s, 0)) else if bits == 32 then U32(s, 0) else U16(s, 0)
    }

    lemma DecodeEntry(d: seq<Byte>, i: nat)
      requires Fits(d) && i < size + 2
      ensures Disp(i) + SlotSize() <= ByteLen()
      ensures Entry(d, i) == Decode(i, ReadAt(d, offset + Disp(i), SlotSize()))
    {
      SlotInside(i);
      var p := offset + Disp(i);
      var s := ReadAt(d, p, SlotSize());
      assert s == d[p..p + SlotSize()];
      assert s[0] == d[p] && s[1] == d[p + 1];
      assert bits == 32 ==> s[2] == d[p + 2] && s[3] == d[p + 3];
    }

    function Slots(d: seq<Byte>, n: nat): (t: seq<nat>)
      requires Fits(d) && n <= size + 2
      ensures |t| == n
    {
      if n == 0 then [] else Slots(d, n - 1) + [Entry(d, n - 1)]
    }

    /** The whole table; entries 0 and 1 are the two reserved slots. */
    function Table(d: seq<Byte>): (t: seq<nat>)
      requires Fits(d)
      ensures |t| == size + 2
    {
      Slots(d, size + 2)
    }

    lemma {:induction false} SlotsAt(d: seq<Byte>, n: nat, i: nat)
      requires Fits(d) && i < n <= size + 2
      ensures Slots(d, n)[i] == Entry(d, i)
    {
      if i < n - 1 {
        SlotsAt(d, n - 1, i);
      }
    }

    lemma TableAt(d: seq<Byte>, i: nat)
      requires Fits(d) && i < size + 2
      ensures Table(d)[i] == Entry(d, i)
    {
      SlotsAt(d, size + 2, i);
    }

    lemma {:induction false} TableIs(d: seq<Byte>, t: seq<nat>)
      requires Fits(d) && |t| == size + 2
      requires forall i :: 0 <= i < size + 2 ==> t[i] == Entry(d, i)
      ensures Table(d) == t
    {
      forall i | 0 <= i < size + 2
        ensures Table(d)[i] == t[i]
      {
        TableAt(d, i);
      }
    }

    predicate Mirrored(d: seq<Byte>)
      requires Fits(d)
    {
      forall k :: offset <= k < offset + ByteLen() ==> d[k] == d[k + (offset2 - offset)]
    }

    /** The WORD or DWORD stored for slot i when its value becomes v. */
    function SlotBytes(d: seq<Byte>, i: nat, v: nat): (s: seq<Byte>)
      requires Fits(d) && i < size + 2 && v < Limit()
      ensures |s| == SlotSize()
    {
      SlotInside(i);
      if bits == 12 then
        Pack16(Put12(i % 2 == 1, U16(d, offset + Disp(i)), v))
      else if bits == 16 then Pack16(v)
      else Pack32(v)
    }

    /** The same from the bytes read back, which only a 12-bit slot needs. */
    function NewSlot(i: nat, s: seq<Byte>, v: nat): (r: seq<Byte>)
      requires v < Limit() && (bits == 12 ==> |s| == 2)
      ensures |r| == SlotSize()
    {
      if bits == 12 then Pack16(Put12(i % 2 == 1, U16(s, 0), v))
      else if bits == 32 then Pack32(v)
      else if bits == 16 then Pack16(v)
      else Zeros(2)
    }

    lemma NewSlotBytes(d: seq<Byte>, i: nat, v: nat, s: seq<Byte>)
      requires Fits(d) && i < size + 2 && v < Limit()
      requires bits == 12 ==> s == ReadAt(d, offset + Disp(i), SlotSize())
      ensures Disp(i) + SlotSize() <= ByteLen()
      ensures bits == 12 ==> |s| == 2
      ensures NewSlot(i, s, v) == SlotBytes(d, i, v)
    {
      SlotInside(i);
      if bits == 12 {
        var p := offset + Disp(i);
        assert s == d[p..p + 2];
        assert s[0] == d[p] && s[1] == d[p + 1];
      }
    }

    /** r is d with s written at displacement p of each copy. */
    ghost predicate Both(d: seq<Byte>, p: nat, s: seq<Byte>, r: seq<Byte>)
      requires Fits(d) && p + |s| <= ByteLen()
    {
      && |r| == |d|
      && forall k :: 0 <= k < |d| ==>
        r[k] == if offset + p <= k < offset + p + |s| then s[k - (offset + p)]
                else if offset2 + p <= k < offset2 + p + |s| then s[k - (offset2 + p)]
                else d[k]
    }

    predicate InFats(k: nat) {
      offset <= k < offset + ByteLen() || offset2 <= k < offset2 + ByteLen()
    }

    /** Nothing but the two copies differs. */
    ghost predicate SameOutside(d: seq<Byte>, e: seq<Byte>) {
      && |d| == |e|
      && (forall k :: 0 <= k < |d| && !InFats(k) ==> d[k] == e[k])
    }

    lemma SameOutsideSelf(d: seq<Byte>)
      ensures SameOutside(d, d)
    {
    }

    lemma SameOutsideTrans(d: seq<Byte>, e: seq<Byte>, f: seq<Byte>)
      requires SameOutside(d, e) && SameOutside(e, f)
      ensures SameOutside(d, f)
    {
    }

    lemma Room(d: seq<Byte>, p: nat, n: nat)
      requires Fits(d) && p + n <= ByteLen()
      ensures offset + p + n <= offset2 + p && offset2 + p + n <= |d|
    {
    }

    lemma BothWrites(d: seq<Byte>, p: nat, s: seq<Byte>)
      requires Fits(d) && p + |s| <= ByteLen()
      ensures |Overwrite(d, offset + p, s)| == |d|
      ensures Both(d, p, s, Overwrite(Overwrite(d, offset + p, s), offset2 + p, s))
    {
      hide Overwrite, Geometry.Fits, Geometry.ByteLen;
      Room(d, p, |s|);
      TwoWrites(d, offset + p, offset2 + p, s);
    }

    lemma BothOutside(d: seq<Byte>, p: nat, s: seq<Byte>, r: seq<Byte>)
      requires Fits(d) && p + |s| <= ByteLen() && Both(d, p, s, r)
      ensures Fits(r) && SameOutside(d, r)
    {
    }

    lemma BothMirrored(d: seq<Byte>, p: nat, s: seq<Byte>, r: seq<Byte>)
      requires Fits(d) && p + |s| <= ByteLen() && Mirrored(d) && Both(d, p, s, r)
      ensures Fits(r) && Mirrored(r)
    {
    }

    /** Storing a slot changes that entry and no other, though 12-bit slots share bytes. */
    lemma {:induction false} SetEntry(d: seq<Byte>, i: nat, v: nat, r: seq<Byte>)
      requires Fits(d) && i < size + 2 && v < Limit() && Mirrored(d)
      requires Disp(i) + SlotSize() <= ByteLen() && Both(d, Disp(i), SlotBytes(d, i, v), r)
      ensures Fits(r) && Mirrored(r) && Table(r) == Table(d)[i := v]
    {
      var s := SlotBytes(d, i, v);
      BothMirrored(d, Disp(i), s, r);
      BothWindow(d, Disp(i), s, r);
      forall j | 0 <= j < size + 2
        ensures Entry(r, j) == if j == i then v else Entry(d, j)
      {
        SlotInside(j);
        if bits == 12 {
          SetEntry12(d, i, v, j, r);
        } else if j == i {
          SetEntryWide(d, i, v, r);
        } else {
          SameEntry(d, j, r);
        }
      }
      forall j | 0 <= j < size + 2
        ensures Table(d)[i := v][j] == Entry(r, j)
      {
        TableAt(d, j);
      }
      TableIs(r, Table(d)[i := v]);
    }

    /** The first copy as SetEntry leaves it. */
    ghost predicate Window(d: seq<Byte>, p: nat, s: seq<Byte>, r: seq<Byte>)
      requires Fits(d) && Fits(r) && p + |s| <= ByteLen()
    {
      forall k :: offset <= k < offset + ByteLen() ==>
        r[k] == if offset + p <= k < offset + p + |s| then s[k - offset - p] else d[k]
    }

    lemma BothWindow(d: seq<Byte>, p: nat, s: seq<Byte>, r: seq<Byte>)
      requires Fits(d) && p + |s| <= ByteLen() && Both(d, p, s, r)
      ensures Fits(r) && Window(d, p, s, r)
    {
    }

    lemma SetEntryWide(d: seq<Byte>, i: nat, v: nat, r: seq<Byte>)
      requires Fits(d) && Fits(r) && bits != 12 && i < size + 2 && v < Limit()
      requires Disp(i) + SlotSize() <= ByteLen() && Window(d, Disp(i), SlotBytes(d, i, v), r)
      ensures Entry(r, i) == v
    {
      var s := SlotBytes(d, i, v);
      var p := offset + Disp(i);
      assert r[p] == s[0] && r[p + 1] == s[1];
      if bits == 16 {
        assert U16(s, 0) == v;
      } else {
        assert r[p + 2] == s[2] && r[p + 3] == s[3];
        assert U32(s, 0) == v;
      }
    }

    lemma SameEntry(d: seq<Byte>, j: nat, r: seq<Byte>)
      requires Fits(d) && Fits(r) && j < size + 2 && Disp(j) + SlotSize() <= ByteLen()
      requires forall k :: offset + Disp(j) <= k < offset + Disp(j) + SlotSize() ==> r[k] == d[k]
      ensures Entry(r, j) == Entry(d, j)
    {
      var q := offset + Disp(j);
      assert r[q] == d[q] && r[q + 1] == d[q + 1];
      if bits == 32 {
        assert r[q + 2] == d[q + 2] && r[q + 3] == d[q + 3];
      }
    }

    /** The two neighbours of a 12-bit slot keep their nibble of the shared byte. */
    lemma {:induction false} SetEntry12(d: seq<Byte>, i: nat, v: nat, j: nat, r: seq<Byte>)
      requires Fits(d) && Fits(r) && bits == 12 && i < size + 2 && j < size + 2 && v < 0x1000
      requires Disp(i) + 2 <= ByteLen() && Disp(j) + 2 <= ByteLen()
      requires Window(d, Disp(i), SlotBytes(d, i, v), r)
      ensures Entry(r, j) == if j == i then v else Entry(d, j)
    {
      var p, q := offset + Disp(i), offset + Disp(j);
      var w, w' := U16(d, p), Put12(i % 2 == 1, U16(d, p), v);
      Places12(i, j);
      Places12(j, i);
      assert r[p] == Pack16(w')[0] && r[p + 1] == Pack16(w')[1];
      if j == i {
      } else if j == i + 1 && i % 2 == 0 {
        assert r[q + 1] == d[q + 1];
        SharedNext(d, r, p, w, w');
      } else if j + 1 == i && i % 2 == 1 {
        assert r[q] == d[q];
        SharedPrevious(d, r, p, w, w');
      } else {
        SameEntry(d, j, r);
      }
    }

    lemma SharedNext(d: seq<Byte>, r: seq<Byte>, p: nat, w: nat, w': nat)
      requires p + 3 <= |d| && p + 3 <= |r| && d[p + 2] == r[p + 2]
      requires w == U16(d, p) && w' == U16(r, p) && w / 0x1000 == w' / 0x1000
      ensures Get12(true, U16(d, p + 1)) == Get12(true, U16(r, p + 1))
    {
      hide Get12;
      assert w / 256 == d[p + 1] as int && w' / 256 == r[p + 1] as int;
      NextOddKept(w, w', d[p + 2] as int);
    }

    lemma SharedPrevious(d: seq<Byte>, r: seq<Byte>, p: nat, w: nat, w': nat)
      requires 0 < p && p + 2 <= |d| && p + 2 <= |r| && d[p - 1] == r[p - 1]
      requires w == U16(d, p) && w' == U16(r, p) && w % 16 == w' % 16
      ensures Get12(false, U16(d, p - 1)) == Get12(false, U16(r, p - 1))
    {
      hide Get12;
      assert w % 256 == d[p] as int && w' % 256 == r[p] as int;
      PreviousEvenKept(d[p - 1] as int, w, w');
    }

    function Slot(v: nat): (s: seq<Byte>)
      requires bits != 12 && v < Limit()
      ensures |s| == SlotSize()
    {
      if bits == 32 then Pack32(v) else if bits == 16 then Pack16(v) else Zeros(2)
    }

    /** The bytes of a run of 16 or 32 bit slots, joined for one write per copy. */
    function PackRun(vs: seq<nat>): (s: seq<Byte>)
      requires bits == 16 || bits == 32
      requires forall k :: 0 <= k < |vs| ==> vs[k] < Limit()
      ensures |s| == SlotAt(|vs|)
    {
      if vs == [] then [] else PackRun(vs[..|vs| - 1]) + Slot(vs[|vs| - 1])
    }

    /** Byte offset of slot m in a run of 16 or 32 bit slots. */
    function SlotAt(m: nat): nat { if bits == 32 then m * 4 else m * 2 }

    lemma {:induction false} PackRunAt(vs: seq<nat>, m: nat)
      requires bits == 16 || bits == 32
      requires forall k :: 0 <= k < |vs| ==> vs[k] < Limit()
      requires m < |vs|
      ensures SlotAt(m) + SlotSize() <= |PackRun(vs)|
      ensures PackRun(vs)[SlotAt(m)..SlotAt(m) + SlotSize()] == Slot(vs[m])
    {
      hide Slot;
      var z := |vs| - 1;
      var s := PackRun(vs[..z]);
      assert |s| == SlotAt(z);
      if m < z {
        PackRunAt(vs[..z], m);
        SlicePrefix(s, Slot(vs[z]), SlotAt(m), SlotSize());
      } else {
        SliceSuffix(s, Slot(vs[z]));
      }
    }

    lemma SlicePrefix(a: seq<Byte>, b: seq<Byte>, i: nat, n: nat)
      requires i + n <= |a|
      ensures (a + b)[i..i + n] == a[i..i + n]
    {
    }

    lemma SliceSuffix(a: seq<Byte>, b: seq<Byte>)
      ensures (a + b)[|a|..|a| + |b|] == b
    {
    }

    lemma {:induction false} SetRun(d: seq<Byte>, start: nat, vs: seq<nat>, r: seq<Byte>)
      requires Fits(d) && bits != 12 && Mirrored(d)
      requires start + |vs| <= size + 2
      requires forall k :: 0 <= k < |vs| ==> vs[k] < Limit()
      requires Disp(start) + |PackRun(vs)| <= ByteLen() && Both(d, Disp(start), PackRun(vs), r)
      ensures Fits(r) && Mirrored(r)
      ensures forall j :: 0 <= j < size + 2 ==>
             Table(r)[j] == if start <= j < start + |vs| then vs[j - start] else Table(d)[j]
    {
      var s := PackRun(vs);
      BothMirrored(d, Disp(start), s, r);
      BothWindow(d, Disp(start), s, r);
      forall j | 0 <= j < size + 2
        ensures Table(r)[j] == if start <= j < start + |vs| then vs[j - start] else Table(d)[j]
      {
        SlotInside(j);
        TableAt(d, j);
        TableAt(r, j);
        if start <= j < start + |vs| {
          SetRunAt(d, start, vs, r, j);
        } else {
          SameEntry(d, j, r);
        }
      }
    }

    lemma SetRunAt(d: seq<Byte>, start: nat, vs: seq<nat>, r: seq<Byte>, j: nat)
      requires Fits(d) && Fits(r) && bits != 12 && start <= j < start + |vs| && start + |vs| <= size + 2
      requires forall k :: 0 <= k < |vs| ==> vs[k] < Limit()
      requires Disp(start) + |PackRun(vs)| <= ByteLen() && Window(d, Disp(start), PackRun(vs), r)
      requires Disp(j) + SlotSize() <= ByteLen()
      ensures Entry(r, j) == vs[j - start]
    {
      hide PackRun, Slot, Window, Entry;
      var m := j - start;
      var a := SlotAt(m);
      var q := offset + Disp(j);
      PackRunAt(vs, m);
      assert q == offset + Disp(start) + a;
      WindowSlice(d, Disp(start), PackRun(vs), r, a, SlotSize());
      SlotValue(r, q, j, vs[m]);
    }

    lemma WindowSlice(d: seq<Byte>, p: nat, s: seq<Byte>, r: seq<Byte>, a: nat, n: nat)
      requires Fits(d) && Fits(r) && p + |s| <= ByteLen() && Window(d, p, s, r) && a + n <= |s|
      ensures offset + p + a + n <= |r|
      ensures r[offset + p + a..offset + p + a + n] == s[a..a + n]
    {
    }

    lemma SlotValue(r: seq<Byte>, q: nat, j: nat, v: nat)
      requires Fits(r) && bits != 12 && j < size + 2 && v < Limit() && q == offset + Disp(j)
      requires q + SlotSize() <= |r| && r[q..q + SlotSize()] == Slot(v)
      ensures Entry(r, j) == v
    {
      var w := r[q..q + SlotSize()];
      assert r[q] == w[0] && r[q + 1] == w[1];
      if bits == 32 {
        assert r[q + 2] == w[2] && r[q + 3] == w[3];
        assert U32(w, 0) == v;
      } else {
        assert U16(w, 0) == v;
      }
    }

    /** Bytes before the slot of cluster 2, and from there to the end of the table. */
    function HeadLen(): nat { if bits == 12 then 3 else if bits == 16 then 4 else 8 }

    function DataLen(): nat {
      if bits == 12 then (size * 12 + 7) / 8
      else if bits == 16 then (size * 16 + 7) / 8
      else (size * 32 + 7) / 8
    }

    /** Slots in n bytes: n*8//bits. */
    function SlotsIn(n: nat): nat {
      if bits == 12 then n * 8 / 12 else if bits == 16 then n * 8 / 16 else n * 8 / 32
    }

    /** The free-space scan's test of slot j in a page of the table. */
    predicate BusySlot(s: seq<Byte>, j: nat)
      requires bits == 12 ==> j / 2 * 3 + (if j % 2 == 0 then 2 else 3) <= |s|
      requires bits == 16 ==> j * 2 + 2 <= |s|
      requires bits == 32 || (bits != 12 && bits != 16) ==> j * 4 + 4 <= |s|
    {
      if bits == 12 then
        var ci := j / 2 * 3;
        if j % 2 == 0 then s[ci] != 0 || s[ci + 1] as int / 16 != 0
        else s[ci + 1] as int % 16 != 0 || s[ci + 2] != 0
      else if bits == 16 then U16(s, j * 2) != 0
      else U32(s, j * 4) != 0
    }

    lemma PageSlot(n: nat, j: nat)
      requires Valid() && j < SlotsIn(n)
      ensures bits == 12 ==> j / 2 * 3 + (if j % 2 == 0 then 2 else 3) <= n
      ensures bits == 16 ==> j * 2 + 2 <= n
      ensures bits == 32 ==> j * 4 + 4 <= n
    {
    }

    lemma WholeTable()
      requires Valid()
      ensures HeadLen() + DataLen() <= ByteLen() && SlotsIn(DataLen()) == size
    {
    }

    /** What the scan takes for an occupied cluster. */
    predicate Busy(d: seq<Byte>, c: nat)
      requires Fits(d) && 2 <= c < size + 2
    {
      WholeTable();
      PageSlot(DataLen(), c - 2);
      BusySlot(d[offset + HeadLen()..offset + HeadLen() + DataLen()], c - 2)
    }

    /** The scan of a 12-bit table looks at the wrong nibble of the byte two slots share. */
    predicate ScanSeesTruth(d: seq<Byte>)
      requires Fits(d)
    {
      bits != 12 || forall c :: 2 <= c < size + 2 ==> NibblesAgree(d, c)
    }

    predicate NibblesAgree(d: seq<Byte>, c: nat)
      requires Fits(d) && bits == 12 && 2 <= c < size + 2
    {
      SlotInside(c);
      var p := offset + Disp(c);
      if c % 2 == 0 then d[p] != 0 || (d[p + 1] as int % 16 == 0 <==> d[p + 1] as int / 16 == 0)
      else d[p + 1] != 0 || (d[p] as int % 16 == 0 <==> d[p] as int / 16 == 0)
    }

    /** The scan tells free from used clusters exactly when every shared byte has both or no nibble set. */
    lemma {:induction false} ScanExact(d: seq<Byte>)
      requires Fits(d)
      ensures ScanSeesTruth(d) <==> forall c :: 2 <= c < size + 2 ==> (Busy(d, c) <==> Table(d)[c] != 0)
    {
      forall c | 2 <= c < size + 2
        ensures bits == 12 ==> (NibblesAgree(d, c) <==> (Busy(d, c) <==> Table(d)[c] != 0))
        ensures bits != 12 ==> (Busy(d, c) <==> Table(d)[c] != 0)
      {
        ScanExactAt(d, c);
        TableAt(d, c);
      }
    }

    lemma ScanExactAt(d: seq<Byte>, c: nat)
      requires Fits(d) && 2 <= c < size + 2
      ensures bits == 12 ==> (NibblesAgree(d, c) <==> (Busy(d, c) <==> Entry(d, c) != 0))
      ensures bits != 12 ==> (Busy(d, c) <==> Entry(d, c) != 0)
    {
      WholeTable();
      SlotInside(c);
      PageSlot(DataLen(), c - 2);
      var s := d[offset + HeadLen()..offset + HeadLen() + DataLen()];
      var p := offset + Disp(c);
      if bits == 16 {
        assert s[(c - 2) * 2] == d[p] && s[(c - 2) * 2 + 1] == d[p + 1];
      } else if bits == 32 {
        assert s[(c - 2) * 4] == d[p] && s[(c - 2) * 4 + 1] == d[p + 1];
        assert s[(c - 2) * 4 + 2] == d[p + 2] && s[(c - 2) * 4 + 3] == d[p + 3];
      } else {
        ScanExact12(d, c);
      }
    }

    lemma ScanExact12(d: seq<Byte>, c: nat)
      requires Fits(d) && bits == 12 && 2 <= c < size + 2
      ensures NibblesAgree(d, c) <==> (Busy(d, c) <==> Entry(d, c) != 0)
    {
      hide Get12, Geometry.Busy, Geometry.NibblesAgree, Geometry.Entry;
      SlotInside(c);
      var p := offset + Disp(c);
      Word12(d[p] as int, d[p + 1] as int);
      Busy12(d, c);
      Entry12(d, c);
      Agree12(d, c);
    }

    lemma Entry12(d: seq<Byte>, c: nat)
      requires Fits(d) && bits == 12 && 2 <= c < size + 2
      ensures Disp(c) + 2 <= ByteLen()
      ensures Entry(d, c) == Get12(c % 2 == 1, d[offset + Disp(c)] as int + 256 * d[offset + Disp(c) + 1] as int)
    {
      SlotInside(c);
      hide Get12, Geometry.ByteLen, Geometry.Disp;
    }

    lemma Agree12(d: seq<Byte>, c: nat)
      requires Fits(d) && bits == 12 && 2 <= c < size + 2 && Disp(c) + 2 <= ByteLen()
      ensures var x, y := d[offset + Disp(c)] as int, d[offset + Disp(c) + 1] as int;
        NibblesAgree(d, c) <==> if c % 2 == 0 then x != 0 || (y % 16 == 0 <==> y / 16 == 0) else y != 0 || (x % 16 == 0 <==> x / 16 == 0)
    {
      hide Geometry.ByteLen, Geometry.Disp;
    }

    lemma Busy12(d: seq<Byte>, c: nat)
      requires Fits(d) && bits == 12 && 2 <= c < size + 2
      ensures Disp(c) + 2 <= ByteLen()
      ensures var x, y := d[offset + Disp(c)] as int, d[offset + Disp(c) + 1] as int;
        Busy(d, c) <==> if c % 2 == 0 then x != 0 || y / 16 != 0 else x % 16 != 0 || y != 0
    {
      SlotInside(c);
      WholeTable();
      PageSlot(DataLen(), c - 2);
      Pair12(c);
      hide Geometry.DataLen, Geometry.ByteLen, Geometry.Disp, Geometry.HeadLen, Geometry.SlotsIn;
      var b := offset + HeadLen();
      var s := d[b..b + DataLen()];
      var ci := (c - 2) / 2 * 3;
      var k := if c % 2 == 0 then ci else ci + 1;
      assert b + k == offset + Disp(c) && (c - 2) % 2 == c % 2;
      assert s[k] == d[b + k] && s[k + 1] == d[b + k + 1];
      assert Busy(d, c) == BusySlot(s, c - 2);
      hide Geometry.Busy, Geometry.Fits;
    }

    /** Where the slots of a pair lie in the data part. */
    lemma Pair12(c: nat)
      requires bits == 12 && c >= 2
      ensures HeadLen() + (c - 2) / 2 * 3 + (if c % 2 == 0 then 0 else 1) == Disp(c)
    {
      Places12(c, c);
      Halves(c);
    }

    lemma Word12(lo: nat, hi: nat)
      requires lo < 256 && hi < 256
      ensures Get12(false, lo + 256 * hi) != 0 <==> lo != 0 || hi % 16 != 0
      ensures Get12(true, lo + 256 * hi) != 0 <==> lo / 16 != 0 || hi != 0
    {
      LowPart(lo, hi);
    }

    /** The table depends on the bytes of the first copy only. */
    lemma {:induction false} TableFrame(d: seq<Byte>, e: seq<Byte>)
      requires Fits(d) && Fits(e)
      requires forall k :: offset <= k < offset + ByteLen() ==> d[k] == e[k]
      ensures Table(d) == Table(e)
    {
      forall i | 0 <= i < size + 2
        ensures Table(d)[i] == Entry(e, i)
      {
        SlotInside(i);
        TableAt(d, i);
        var p := offset + Disp(i);
        assert d[p] == e[p] && d[p + 1] == e[p + 1];
        assert bits == 32 ==> d[p + 2] == e[p + 2] && d[p + 3] == e[p + 3];
      }
      TableIs(e, Table(d));
    }
  }

  /** A 12-bit table in which the scan takes a cluster in use for free: cluster 2, followed by cluster 256. */
  lemma ScanLosesCluster() returns (g: Geometry, d: seq<Byte>)
    ensures g.bits == 12 && g.size == 300 && g.Fits(d) && g.Entry(d, 2) == 256 && g.Usable(256) && !g.Busy(d, 2) &&
        !g.ScanSeesTruth(d)
  {
    g := Geometry(12, 0, 512, 300);
    d := seq(1024, k => if k == 4 || k == 516 then 1 else 0);
    assert g.Fits(d);
    assert d[3] == 0 && d[4] == 1;
    assert !g.NibblesAgree(d, 2);
    g.ScanExact12(d, 2);
  }
}
