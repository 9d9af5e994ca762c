/** The table byte by byte: where each slot lies in the two copies, and which bytes hold its value. */
module FatBytes {
  import opened Bytes
  import opened FatTable
  import opened FatChains

  /** The copy of the table at q has value v in slot c: two or four bytes, the low one first, or twelve bits of three
      bytes that two slots share. */
  ghost predicate Holds(bits: nat, d: seq<Byte>, q: nat, c: nat, v: nat) {
    if bits == 32 then
      && q + 4 * c + 4 <= |d| && v < 0x1_0000_0000 && d[q + 4 * c] as int == v % 256
      && d[q + 4 * c + 1] as int == v / 256 % 256 && d[q + 4 * c + 2] as int == v / 0x1_0000 % 256
      && d[q + 4 * c + 3] as int == v / 0x100_0000
    else if bits == 16 then
      && q + 2 * c + 2 <= |d| && v < 0x1_0000
      && d[q + 2 * c] as int == v % 256 && d[q + 2 * c + 1] as int == v / 256
    else if c % 2 == 0 then
      && q + 3 * (c / 2) + 2 <= |d| && v < 0x1000
      && d[q + 3 * (c / 2)] as int == v % 256 && d[q + 3 * (c / 2) + 1] as int % 16 == v / 256
    else
      && q + 3 * (c / 2) + 3 <= |d| && v < 0x1000
      && d[q + 3 * (c / 2) + 1] as int / 16 == v % 16 && d[q + 3 * (c / 2) + 2] as int == v / 16
  }

  /** Two numbers with the same bytes are the same. */
  lemma HoldsOne(bits: nat, d: seq<Byte>, q: nat, c: nat, v: nat, w: nat)
    requires bits == 12 || bits == 16 || bits == 32
    requires Holds(bits, d, q, c, v) && Holds(bits, d, q, c, w)
    ensures v == w
  {
    if bits == 32 {
      FourBytes(v);
      FourBytes(w);
    }
  }

  lemma Low32(a: nat, b: nat, c: nat, e: nat)
    requires a < 256 && b < 256 && c < 256 && e < 256
    ensures var v := a + 256 * b + 0x1_0000 * c + 0x100_0000 * e;
      v < 0x1_0000_0000 && v % 256 == a && v / 256 % 256 == b && v / 0x1_0000 % 256 == c && v / 0x100_0000 == e
  {
    var v := a + 256 * b + 0x1_0000 * c + 0x100_0000 * e;
    assert v / 256 == b + 256 * c + 0x1_0000 * e;
    assert v / 0x1_0000 == c + 256 * e;
  }

  lemma Nibbles(lo: nat, hi: nat)
    requires lo < 256 && hi < 256
    ensures Get12(false, lo + 256 * hi) == lo + 256 * (hi % 16) < 0x1000
    ensures Get12(true, lo + 256 * hi) == lo / 16 + 16 * hi < 0x1000
  {
    LowPart(lo, hi);
  }

  /** Where the slots lie. */
  lemma Place(g: Geometry, c: nat)
    requires g.Valid() && c < g.size + 2
    ensures g.Disp(c) + g.SlotSize() <= g.ByteLen()
    ensures g.Disp(c) == if g.bits == 32 then 4 * c else if g.bits == 16 then 2 * c else 3 * (c / 2) + c % 2
  {
    g.SlotInside(c);
    Places12(c, c);
    assert 2 * (c / 2) + c % 2 == c;
  }

  /** The number in the bytes of a slot. */
  lemma Held(bits: nat, d: seq<Byte>, q: nat, c: nat, p: nat)
    requires bits == 12 || bits == 16 || bits == 32
    requires p == q + (if bits == 32 then 4 * c else if bits == 16 then 2 * c else 3 * (c / 2) + c % 2)
    requires p + (if bits == 32 then 4 else 2) <= |d|
    ensures Holds(bits, d, q, c,
      if bits == 32 then U32(d, p) else if bits == 16 then U16(d, p) else Get12(c % 2 == 1, U16(d, p)))
  {
    if bits == 32 {
      Low32(d[p] as int, d[p + 1] as int, d[p + 2] as int, d[p + 3] as int);
    } else if bits == 12 {
      Nibbles(d[p] as int, d[p + 1] as int);
      Twelve(d[p] as int, d[p + 1] as int);
    }
  }

  lemma Twelve(lo: nat, hi: nat)
    requires lo < 256 && hi < 256
    ensures (lo + 256 * (hi % 16)) % 256 == lo && (lo + 256 * (hi % 16)) / 256 == hi % 16
    ensures (lo / 16 + 16 * hi) % 16 == lo / 16 && (lo / 16 + 16 * hi) / 16 == hi
  {
  }

  /** The entry of a slot is the number its bytes hold in the first copy. */
  lemma EntryBytes(g: Geometry, d: seq<Byte>, c: nat)
    requires g.Fits(d) && c < g.size + 2
    ensures Holds(g.bits, d, g.offset, c, g.Table(d)[c])
  {
    hide Holds, Get12, Geometry.Table, Geometry.Disp, Geometry.ByteLen;
    g.TableAt(d, c);
    Place(g, c);
    Held(g.bits, d, g.offset, c, g.offset + g.Disp(c));
  }

  /** And in the second. */
  lemma CopyBytes(g: Geometry, d: seq<Byte>, c: nat)
    requires g.Fits(d) && g.Mirrored(d) && c < g.size + 2
    ensures Holds(g.bits, d, g.offset2, c, g.Table(d)[c])
  {
    hide Holds, Get12, Geometry.Table, Geometry.Disp, Geometry.ByteLen;
    g.TableAt(d, c);
    Place(g, c);
    Held(g.bits, d, g.offset2, c, g.offset2 + g.Disp(c));
    var p, r := g.offset + g.Disp(c), g.offset2 + g.Disp(c);
    assert d[p] == d[r] && d[p + 1] == d[r + 1] && (g.bits == 32 ==> d[p + 2] == d[r + 2] && d[p + 3] == d[r + 3]);
  }

  /** In numbers: how many clusters the driver can number, which of them it takes, and what ends a chain, of FAT32 any
      of eight marks. */
  lemma Numbers(g: Geometry, c: nat, v: nat)
    requires g.Valid() && v < g.Limit()
    ensures g.size <= if g.bits == 32 then 268435445 else if g.bits == 16 then 65525 else 4085
    ensures g.Usable(c) <==> 2 <= c < g.size + 2
    ensures g.Limit() == if g.bits == 32 then 4294967296 else if g.bits == 16 then 65536 else 4096
    ensures v >= g.Reserved() <==> v >= if g.bits == 32 then 0x0FFF_FFF7 else if g.bits == 16 then 0xFFF7 else 0xFF7
    ensures IsLast(v, g.Last()) <==>
      if g.bits == 32 then 0x0FFF_FFF8 <= v <= 0x0FFF_FFFF else if g.bits == 16 then v == 0xFFFF else v == 0xFFF
  {
  }
}
